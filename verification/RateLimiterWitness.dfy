/** The extra factor in the rate bound is real: a run that admits a key beyond its limit after an eviction. */
module RateLimiterWitness {
  import opened Sums
  import opened RateLimiter

  function Ask(ip: string): Request {
    Request(61, Some(ip), Some("/api/v1/auth/"), None)
  }

  const VICTIM := Ask("v")

  function Filler(n: nat): Request {
    Ask(seq(n + 1, _ => 'x'))
  }

  lemma FillerKeys(n: nat, m: nat)
    ensures (Key(Filler(n)) == Key(Filler(m)) <==> n == m) && Key(Filler(n)) != Key(VICTIM)
    ensures LimitOf(Filler(n)) == LimitOf(VICTIM) == 60 && Filler(n).now == VICTIM.now == 61
  {
    assert |Address(Filler(n).ip)| == n + 1 && |Address(Filler(m).ip)| == m + 1;
    assert Address(Filler(n).ip)[0] == 'x' && Address(VICTIM.ip)[0] == 'v';
    if Key(Filler(n)) == Key(Filler(m)) {
      KeysCarryLimits(Filler(n), Filler(m));
    }
    if Key(Filler(n)) == Key(VICTIM) {
      KeysCarryLimits(Filler(n), VICTIM);
    }
  }

  /** The table after `c` requests of the victim and one of each of the first `n` fillers. */
  function Filled(c: nat, n: nat): map<string, nat> {
    if n == 0 then map[Key(VICTIM) := c] else Filled(c, n - 1)[Key(Filler(n - 1)) := 1]
  }

  lemma NewEntry(m: map<string, nat>, k: string)
    requires k !in m
    ensures |m[k := 1]| == |m| + 1
  {
    assert m[k := 1].Keys == m.Keys + {k};
  }

  lemma {:induction false} FilledShape(c: nat, n: nat, m: nat)
    requires n <= m
    ensures |Filled(c, n)| == n + 1 && Key(Filler(m)) !in Filled(c, n) && Key(VICTIM) in Filled(c, n)
    ensures Filled(c, n)[Key(VICTIM)] == c
  {
    hide Key, Filler;
    FillerKeys(m, m);
    if n > 0 {
      FilledShape(c, n - 1, n - 1);
      FilledShape(c, n - 1, m);
      FillerKeys(n - 1, m);
      NewEntry(Filled(c, n - 1), Key(Filler(n - 1)));
    }
  }

  lemma {:induction false} LegalAppend(t: Table, acc: Account, hits: seq<Hit>, h: Hit, key: string)
    requires Legal(t, hits) && Serves(LastTable(t, hits), h)
    ensures Legal(t, hits + [h]) && LastTable(t, hits + [h]) == h.after
    ensures AccountOf(t, acc, hits + [h], key) == Charge(LastTable(t, hits), AccountOf(t, acc, hits, key), h, key)
    decreases |hits|
  {
    hide Serves, Charge;
    if hits == [] {
      assert hits + [h] == [h] && [h][1..] == [];
    } else {
      assert (hits + [h])[1..] == hits[1..] + [h];
      LegalAppend(hits[0].after, Charge(t, acc, hits[0], key), hits[1..], h, key);
    }
  }

  lemma {:induction false} VictimFirst(c: nat) returns (hits: seq<Hit>)
    requires 1 <= c <= 60
    ensures Legal(FRESH, hits) && LastTable(FRESH, hits) == Table(Filled(c, 0), 61)
    ensures AccountOf(FRESH, NO_ACCOUNT, hits, Key(VICTIM)) == Account(c, 0, c, c, 0)
  {
    hide Key, LimitOf;
    FillerKeys(0, 0);
    var h := Hit(VICTIM, true, false, Table(Filled(c, 0), 61));
    if c == 1 {
      hits := [];
      assert Bump(map[], Key(VICTIM)) == Filled(1, 0);
      FilledShape(1, 0, 0);
    } else {
      hits := VictimFirst(c - 1);
      FilledShape(c - 1, 0, 0);
      assert Bump(Filled(c - 1, 0), Key(VICTIM)) == Filled(c, 0);
      BumpSize(Filled(c - 1, 0), Key(VICTIM));
    }
    LegalAppend(FRESH, NO_ACCOUNT, hits, h, Key(VICTIM));
    hits := hits + [h];
  }

  /** Below the table's maximum one more filler is served without an eviction. */
  lemma FillerServed(n: nat)
    requires n < 1023
    ensures Serves(Table(Filled(60, n), 61), Hit(Filler(n), true, false, Table(Filled(60, n + 1), 61)))
  {
    hide Key, LimitOf, Filler;
    FillerKeys(n, n);
    FilledShape(60, n, n);
    FilledShape(60, n + 1, n + 1);
    assert Bump(Filled(60, n), Key(Filler(n))) == Filled(60, n + 1);
  }

  lemma {:induction false} FillersNext(n: nat) returns (hits: seq<Hit>)
    requires n <= 1023
    ensures Legal(FRESH, hits) && LastTable(FRESH, hits) == Table(Filled(60, n), 61)
    ensures AccountOf(FRESH, NO_ACCOUNT, hits, Key(VICTIM)) == Account(60 + n, 0, 60, 60, 0)
  {
    if n == 0 {
      hits := VictimFirst(60);
    } else {
      hide Key, LimitOf, Filler, Legal, AccountOf, Serves, Filled;
      hits := FillersNext(n - 1);
      FillerKeys(n - 1, n - 1);
      FillerServed(n - 1);
      var h := Hit(Filler(n - 1), true, false, Table(Filled(60, n), 61));
      LegalAppend(FRESH, NO_ACCOUNT, hits, h, Key(VICTIM));
      hits := hits + [h];
    }
  }

  /** One filler more overflows the table, and the victim's entry is among those shed. */
  lemma Overflow(n: nat) returns (h: Hit)
    requires n == 1023
    ensures Serves(Table(Filled(60, n), 61), h) && h.req == Filler(n) && h.evicted && h.after.start == 61
    ensures Key(VICTIM) !in h.after.counts && |h.after.counts| <= 514
  {
    hide Key, LimitOf, Filler, Filled;
    var key, full := Key(Filler(n)), Filled(60, n);
    FilledShape(60, n, n);
    FillerKeys(n, n);
    BumpSize(full, key);
    var bumped := Bump(full, key);
    assert bumped.Keys == full.Keys + {key};
    var kept := SubsetOfSize(bumped.Keys - {Key(VICTIM)}, 513);
    var left := Bump(Keep(bumped, kept), key);
    assert Keep(bumped, kept).Keys == kept;
    BumpSize(Keep(bumped, kept), key);
    assert Shed(bumped, key, left);
    h := Hit(Filler(n), Get(left, key) <= 60, true, Table(left, 61));
  }

  /** The victim's next request finds no count of its own and is admitted. */
  lemma AgainServed(t: Table)
    requires t.start == 61 && Key(VICTIM) !in t.counts && |t.counts| <= 514
    ensures Serves(t, Hit(VICTIM, true, false, Table(Bump(t.counts, Key(VICTIM)), 61)))
  {
    hide Key, LimitOf;
    FillerKeys(0, 0);
    BumpSize(t.counts, Key(VICTIM));
  }

  /** Within one window 61 requests of one key are admitted against a limit of 60. */
  lemma BeyondTheLimit() returns (hits: seq<Hit>)
    ensures Legal(FRESH, hits) && LimitOf(VICTIM) == 60
    ensures AccountOf(FRESH, NO_ACCOUNT, hits, Key(VICTIM)) == Account(1085, 1, 61, 61, 1)
  {
    hide Key, LimitOf, Filler, Filled, Legal, AccountOf;
    var n :| n == 1023;
    FillerKeys(n, n);
    hits := FillersNext(n);
    FilledShape(60, n, n);
    var over := Overflow(n);
    LegalAppend(FRESH, NO_ACCOUNT, hits, over, Key(VICTIM));
    hits := hits + [over];
    var counts := over.after.counts;
    var again := Hit(VICTIM, true, false, Table(Bump(counts, Key(VICTIM)), 61));
    AgainServed(over.after);
    LegalAppend(FRESH, NO_ACCOUNT, hits, again, Key(VICTIM));
    hits := hits + [again];
  }
}
