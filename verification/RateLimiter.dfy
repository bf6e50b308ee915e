/**
 The REST rate limiter: per-endpoint counters in fixed windows, in a table that
 sheds half its entries, in whatever order the hash table yields them, when it
 grows past 1024; and the per-user counters, dropped altogether past 512.
 */
module RateLimiter {
  import opened Sums

  const TABLE_MAX := 1024
  const WINDOW := 60
  const USER_TABLE_MAX := 512
  const USER_LIMIT := 1200

  datatype Request = Request(now: int, ip: Option<string>, path: Option<string>, verb: Option<string>)

  // ----- buckets, limits and keys

  function Bucket(path: Option<string>, verb: Option<string>): string {
    if path.None? then "default"
    else if "/api/v1/auth/" <= path.value then "auth"
    else if "/api/v1/metrics" <= path.value then "metrics"
    else if "/api/v1/health" <= path.value then "health"
    else if "/api/v1/vms" <= path.value && verb == Some("POST") then "vms-post"
    else "default"
  }

  function Limit(path: Option<string>, verb: Option<string>): nat {
    var bucket := Bucket(path, verb);
    if bucket == "auth" then 60
    else if bucket == "metrics" || bucket == "health" then 3600
    else if bucket == "vms-post" then 120
    else 600
  }

  function Address(ip: Option<string>): string {
    if ip.Some? && ip.value != "" then ip.value else "unknown"
  }

  function Key(r: Request): string {
    Address(r.ip) + ":" + Bucket(r.path, r.verb)
  }

  function LimitOf(r: Request): nat {
    Limit(r.path, r.verb)
  }

  /** Whatever follows the last colon can be read back, though addresses may contain colons. */
  lemma {:induction false} AfterLastColon(a: string, b: string, c: string, d: string)
    requires a + ":" + b == c + ":" + d
    requires ':' !in b && ':' !in d
    ensures a == c && b == d
  {
    var s := a + ":" + b;
    assert s[|a|] == ':' && s[|c|] == ':';
    assert |a| == |c|;
    assert a == s[..|a|] && c == s[..|c|];
    assert b == s[|a| + 1..] && d == s[|c| + 1..];
  }

  /** Equal keys come from the same address and bucket, so they carry the same limit. */
  lemma KeysCarryLimits(r: Request, q: Request)
    requires Key(r) == Key(q)
    ensures Address(r.ip) == Address(q.ip) && LimitOf(r) == LimitOf(q) >= 60
  {
    AfterLastColon(Address(r.ip), Bucket(r.path, r.verb), Address(q.ip), Bucket(q.path, q.verb));
  }

  predicate Under(r: Request, prefix: string) {
    r.path.Some? && prefix <= r.path.value
  }

  /** A request to make a machine. */
  predicate MakesVm(r: Request) {
    Under(r, "/api/v1/vms") && r.verb == Some("POST")
  }

  /** No path lies under two of the prefixes. */
  lemma PrefixesApart(r: Request)
    ensures !(Under(r, "/api/v1/auth/") && (Under(r, "/api/v1/metrics") || Under(r, "/api/v1/health")))
    ensures !(Under(r, "/api/v1/auth/") && Under(r, "/api/v1/vms"))
    ensures !(Under(r, "/api/v1/metrics") && (Under(r, "/api/v1/health") || Under(r, "/api/v1/vms")))
    ensures !(Under(r, "/api/v1/health") && Under(r, "/api/v1/vms"))
  {
    assert "/api/v1/auth/"[8] == 'a' && "/api/v1/metrics"[8] == 'm' && "/api/v1/health"[8] == 'h' && "/api/v1/vms"[8] == 'v';
  }

  /** The budget of every request, by path and verb alone. */
  lemma LimitOfEachClass(r: Request)
    ensures Under(r, "/api/v1/auth/") ==> LimitOf(r) == 60
    ensures Under(r, "/api/v1/metrics") || Under(r, "/api/v1/health") ==> LimitOf(r) == 3600
    ensures MakesVm(r) ==> LimitOf(r) == 120
    ensures Under(r, "/api/v1/vms") && r.verb != Some("POST") ==> LimitOf(r) == 600
    ensures r.path.None? ==> LimitOf(r) == 600
    ensures (&& !Under(r, "/api/v1/auth/") && !Under(r, "/api/v1/metrics") && !Under(r, "/api/v1/health")
             && !Under(r, "/api/v1/vms")) ==> LimitOf(r) == 600
  {
    PrefixesApart(r);
    BucketNames();
  }

  /** The bucket names differ. */
  lemma BucketNames()
    ensures |"auth"| == 4 && |"metrics"| == 7 && |"health"| == 6 && |"vms-post"| == 8 && |"default"| == 7
    ensures "metrics"[0] == 'm' && "default"[0] == 'd'
  {
  }

  /** In the same budget: both log in, both read metrics, both health, both make machines, or neither any of these. */
  predicate SameClass(r: Request, q: Request) {
    && (Under(r, "/api/v1/auth/") <==> Under(q, "/api/v1/auth/"))
    && (Under(r, "/api/v1/metrics") <==> Under(q, "/api/v1/metrics"))
    && (Under(r, "/api/v1/health") <==> Under(q, "/api/v1/health"))
    && (MakesVm(r) <==> MakesVm(q))
  }

  lemma BucketIsClass(r: Request, q: Request)
    ensures Bucket(r.path, r.verb) == Bucket(q.path, q.verb) <==> SameClass(r, q)
  {
    PrefixesApart(r);
    PrefixesApart(q);
    BucketNames();
  }

  /** Exactly which requests share a count: those of one address, known or not, in one class of path and verb. */
  lemma SharedBudget(r: Request, q: Request)
    ensures Key(r) == Key(q) <==> Address(r.ip) == Address(q.ip) && SameClass(r, q)
    ensures r.ip.Some? && q.ip.Some? && r.ip.value != "" && q.ip.value != "" ==>
      (Key(r) == Key(q) <==> r.ip == q.ip && SameClass(r, q))
    ensures r.ip.None? && q.ip == Some("") && SameClass(r, q) ==> Key(r) == Key(q)
  {
    BucketIsClass(r, q);
    if Key(r) == Key(q) {
      AfterLastColon(Address(r.ip), Bucket(r.path, r.verb), Address(q.ip), Bucket(q.path, q.verb));
    }
  }

  // ----- one request

  datatype Table = Table(counts: map<string, nat>, start: int)

  function Get(m: map<string, nat>, key: string): nat {
    if key in m then m[key] else 0
  }

  function Bump(m: map<string, nat>, key: string): map<string, nat> {
    m[key := Get(m, key) + 1]
  }

  predicate NewWindow(t: Table, now: int) {
    now - t.start > WINDOW
  }

  function Opened(t: Table, now: int): Table {
    if NewWindow(t, now) then Table(map[], now) else t
  }

  function Keep(m: map<string, nat>, kept: set<string>): map<string, nat> {
    map k | k in m && k in kept :: m[k]
  }

  /** Half of the entries, rounded up, survive; then the request is counted again. */
  ghost predicate Shed(m: map<string, nat>, key: string, m': map<string, nat>) {
    exists kept :: kept <= m.Keys && |kept| == |m| - |m| / 2 && m' == Bump(Keep(m, kept), key)
  }

  datatype Hit = Hit(req: Request, admitted: bool, evicted: bool, after: Table)

  /** What the limiter may do with a request. */
  ghost predicate Serves(t: Table, h: Hit) {
    var key := Key(h.req);
    var open := Opened(t, h.req.now);
    var bumped := Bump(open.counts, key);
    && h.evicted == (|bumped| > TABLE_MAX)
    && h.after.start == open.start
    && (if h.evicted then Shed(bumped, key, h.after.counts) else h.after.counts == bumped)
    && h.admitted == (Get(h.after.counts, key) <= LimitOf(h.req))
  }

  class EndpointLimiter {
    var counts: map<string, nat>
    var start: int

    constructor ()
      ensures counts == map[] && start == 0
    {
      counts, start := map[], 0;
    }

    /** Drop entries in iteration order, which may be any, until half of them are gone. */
    method EvictHalf()
      modifies this`counts
      ensures counts.Keys <= old(counts).Keys && |counts| == |old(counts)| - |old(counts)| / 2
      ensures counts == Keep(old(counts), counts.Keys)
    {
      var removed, target := 0, |counts| / 2;
      assert counts == Keep(counts, counts.Keys);
      while counts != map[] && removed < target
        invariant 0 <= removed <= target
        invariant counts.Keys <= old(counts).Keys && counts == Keep(old(counts), counts.Keys)
        invariant |counts.Keys| + removed == |old(counts).Keys|
        decreases target - removed
      {
        var victim :| victim in counts;
        var rest := counts - {victim};
        assert rest.Keys == counts.Keys - {victim};
        assert rest == Keep(old(counts), rest.Keys);
        counts := rest;
        removed := removed + 1;
      }
    }

    method Request(req: Request) returns (admitted: bool, evicted: bool)
      modifies this
      ensures Serves(Table(old(counts), old(start)), Hit(req, admitted, evicted, Table(counts, start)))
    {
      hide Key, LimitOf;
      if req.now - start > WINDOW {
        counts := map[];
        start := req.now;
      }
      var key := Key(req);
      var count := Get(counts, key) + 1;
      counts := counts[key := count];
      evicted := |counts| > TABLE_MAX;
      if evicted {
        ghost var bumped := counts;
        EvictHalf();
        ghost var kept := counts.Keys;
        count := Get(counts, key) + 1;
        counts := counts[key := count];
        assert kept <= bumped.Keys && |kept| == |bumped| - |bumped| / 2 && counts == Bump(Keep(bumped, kept), key);
      }
      admitted := count <= LimitOf(req);
    }
  }

  // ----- runs, and the account of one key in the current window

  ghost predicate Legal(t: Table, hits: seq<Hit>)
    decreases |hits|
  {
    hits == [] || (Serves(t, hits[0]) && Legal(hits[0].after, hits[1..]))
  }

  /** An eviction takes the count of a key other than the one it was made for. */
  predicate Sheds(t: Table, h: Hit, key: string) {
    h.evicted && key != Key(h.req) && key in t.counts && key !in h.after.counts
  }

  /** Since the window opened: requests and evictions, and of one key the requests, admissions and lost counts. */
  datatype Account = Account(requests: nat, evictions: nat, asked: nat, admitted: nat, sheds: nat)

  function Charge(t: Table, acc: Account, h: Hit, key: string): Account {
    var base := if NewWindow(t, h.req.now) then NO_ACCOUNT else acc;
    var mine := Key(h.req) == key;
    Account(base.requests + 1,
            base.evictions + (if h.evicted then 1 else 0),
            base.asked + (if mine then 1 else 0),
            base.admitted + (if mine && h.admitted then 1 else 0),
            base.sheds + (if Sheds(t, h, key) then 1 else 0))
  }

  function AccountOf(t: Table, acc: Account, hits: seq<Hit>, key: string): Account
    decreases |hits|
  {
    if hits == [] then acc else AccountOf(hits[0].after, Charge(t, acc, hits[0], key), hits[1..], key)
  }

  function LastTable(t: Table, hits: seq<Hit>): Table {
    if hits == [] then t else hits[|hits| - 1].after
  }

  function Min(a: nat, b: nat): nat {
    if a <= b then a else b
  }

  /** Every request that asks for `key` carries `limit`. */
  predicate LimitFor(hits: seq<Hit>, key: string, limit: nat) {
    forall i :: 0 <= i < |hits| && Key(hits[i].req) == key ==> LimitOf(hits[i].req) == limit
  }

  ghost predicate AccountOk(t: Table, acc: Account, key: string, limit: nat) {
    && |t.counts| <= TABLE_MAX
    && |t.counts| + 511 * acc.evictions <= acc.requests
    && (acc.evictions >= 1 ==> 1025 + 511 * (acc.evictions - 1) <= acc.requests)
    && acc.sheds <= acc.evictions
    && acc.admitted <= limit * acc.sheds + Min(Get(t.counts, key), limit)
    && (acc.evictions == 0 ==> acc.asked == Get(t.counts, key) && acc.admitted == Min(acc.asked, limit))
  }

  /** A window lasts sixty seconds: a later request starts a new one, with only itself in the table. */
  lemma WindowLasts(t: Table, h: Hit)
    requires Serves(t, h)
    ensures h.req.now - t.start > 60 ==> h.after == Table(map[Key(h.req) := 1], h.req.now) && h.admitted
    ensures h.req.now - t.start <= 60 ==> h.after.start == t.start
  {
    LimitOfEachClass(h.req);
    if h.req.now - t.start > 60 {
      BumpSize(map[], Key(h.req));
      assert Bump(map[], Key(h.req)) == map[Key(h.req) := 1];
    }
  }

  /** An eviction happens only for a key the table does not know, and leaves at most 514 entries. */
  lemma EvictionShape(t: Table, h: Hit)
    requires |t.counts| <= TABLE_MAX && Serves(t, h) && h.evicted
    ensures Key(h.req) !in t.counts && !NewWindow(t, h.req.now)
    ensures |t.counts| == TABLE_MAX && 513 <= |h.after.counts| <= 514
    ensures Get(h.after.counts, Key(h.req)) <= 2
    ensures Get(h.after.counts, Key(h.req)) >= 1
    ensures forall k :: k != Key(h.req) && k in h.after.counts ==> k in t.counts && h.after.counts[k] == t.counts[k]
  {
    var key := Key(h.req);
    var open := Opened(t, h.req.now);
    var bumped := Bump(open.counts, key);
    assert bumped.Keys == open.counts.Keys + {key};
    var kept :| kept <= bumped.Keys && |kept| == |bumped| - |bumped| / 2 && h.after.counts == Bump(Keep(bumped, kept), key);
    assert Keep(bumped, kept).Keys == kept;
    assert h.after.counts.Keys == kept + {key};
  }

  lemma BumpSize(m: map<string, nat>, key: string)
    ensures |Bump(m, key)| == |m| + (if key in m then 0 else 1)
  {
    assert Bump(m, key).Keys == m.Keys + {key};
  }

  lemma LimitTimes(limit: nat, e: nat)
    ensures limit * (e + 1) == limit * e + limit
  {
  }

  lemma ChargeStep(t: Table, acc: Account, h: Hit, key: string, limit: nat)
    requires Serves(t, h) && AccountOk(t, acc, key, limit)
    requires limit >= 1 && (Key(h.req) == key ==> LimitOf(h.req) == limit)
    ensures AccountOk(h.after, Charge(t, acc, h, key), key, limit)
  {
    hide Key, LimitOf, Shed;
    BumpSize(Opened(t, h.req.now).counts, Key(h.req));
    if h.evicted {
      EvictionShape(t, h);
      LimitTimes(limit, acc.sheds);
    }
  }

  lemma {:induction false} AccountRun(t: Table, acc: Account, hits: seq<Hit>, key: string, limit: nat)
    requires Legal(t, hits) && AccountOk(t, acc, key, limit) && limit >= 1 && LimitFor(hits, key, limit)
    ensures AccountOk(LastTable(t, hits), AccountOf(t, acc, hits, key), key, limit)
    decreases |hits|
  {
    hide Key, LimitOf, Serves, Charge, AccountOk;
    if hits != [] {
      ChargeStep(t, acc, hits[0], key, limit);
      AccountRun(hits[0].after, Charge(t, acc, hits[0], key), hits[1..], key, limit);
    }
  }

  const FRESH := Table(map[], 0)
  const NO_ACCOUNT := Account(0, 0, 0, 0, 0)

  lemma OneLimitPerKey(hits: seq<Hit>, r: Request)
    ensures LimitFor(hits, Key(r), LimitOf(r)) && LimitOf(r) >= 1
  {
    forall j | 0 <= j < |hits| && Key(hits[j].req) == Key(r) ensures LimitOf(hits[j].req) == LimitOf(r) {
      KeysCarryLimits(hits[j].req, r);
    }
  }

  /**
   For every run of requests from start-up and the key of any request, with the
   account of that key in the current window: at most `limit` times one plus the
   evictions that took its count are admitted; without any eviction exactly the
   first `limit` are; the table stays within 1024; and evictions are paid for,
   the first by 1025 requests and each further one by 511.
   */
  lemma RateBound(hits: seq<Hit>, r: Request)
    requires Legal(FRESH, hits)
    ensures var acc := AccountOf(FRESH, NO_ACCOUNT, hits, Key(r));
      && acc.admitted <= LimitOf(r) * (acc.sheds + 1) && acc.sheds <= acc.evictions
      && (acc.evictions == 0 ==> acc.admitted == Min(acc.asked, LimitOf(r)))
      && |LastTable(FRESH, hits).counts| <= 1024
      && (acc.evictions >= 1 ==> acc.requests >= 1025 + 511 * (acc.evictions - 1))
  {
    hide Key, LimitOf, Legal, AccountOf;
    OneLimitPerKey(hits, r);
    var limit := LimitOf(r);
    AccountRun(FRESH, NO_ACCOUNT, hits, Key(r), limit);
    LimitTimes(limit, AccountOf(FRESH, NO_ACCOUNT, hits, Key(r)).sheds);
  }

  /**
   In a window without evictions up to and including a request, it is admitted
   exactly when it is among the first `limit` of its key in the window.
   */
  lemma FirstLimitAdmitted(hits: seq<Hit>, h: Hit)
    requires Legal(FRESH, hits) && Serves(LastTable(FRESH, hits), h)
    requires Charge(LastTable(FRESH, hits), AccountOf(FRESH, NO_ACCOUNT, hits, Key(h.req)), h, Key(h.req)).evictions == 0
    ensures h.admitted <==>
      Charge(LastTable(FRESH, hits), AccountOf(FRESH, NO_ACCOUNT, hits, Key(h.req)), h, Key(h.req)).asked <= LimitOf(h.req)
  {
    OneLimitPerKey(hits, h.req);
    AccountRun(FRESH, NO_ACCOUNT, hits, Key(h.req), LimitOf(h.req));
    ChargeStep(LastTable(FRESH, hits), AccountOf(FRESH, NO_ACCOUNT, hits, Key(h.req)), h, Key(h.req), LimitOf(h.req));
  }

  // ----- exactly when the limit holds from here on

  predicate InWindow(t: Table, hits: seq<Hit>)
    decreases |hits|
  {
    hits == [] || (!NewWindow(t, hits[0].req.now) && InWindow(hits[0].after, hits[1..]))
  }

  predicate Unshed(t: Table, hits: seq<Hit>, key: string)
    decreases |hits|
  {
    hits == [] || (!Sheds(t, hits[0], key) && Unshed(hits[0].after, hits[1..], key))
  }

  /** However the window goes on, as long as the key's count is not shed again, its limit holds. */
  ghost predicate HeldToLimit(t: Table, acc: Account, key: string, limit: nat) {
    forall more | Legal(t, more) && InWindow(t, more) && Unshed(t, more, key) ::
      AccountOf(t, acc, more, key).admitted <= limit
  }

  /** The table remembers every admission of the key, and there were no more than the limit. */
  predicate Remembered(t: Table, acc: Account, key: string, limit: nat) {
    acc.admitted <= Min(Get(t.counts, key), limit)
  }

  lemma RememberedStep(t: Table, acc: Account, h: Hit, key: string, limit: nat)
    requires Serves(t, h) && |t.counts| <= TABLE_MAX && !NewWindow(t, h.req.now) && !Sheds(t, h, key)
    requires Remembered(t, acc, key, limit) && (Key(h.req) == key ==> LimitOf(h.req) == limit)
    ensures Remembered(h.after, Charge(t, acc, h, key), key, limit) && |h.after.counts| <= TABLE_MAX
  {
    hide Key, LimitOf, Shed;
    BumpSize(t.counts, Key(h.req));
    if h.evicted {
      EvictionShape(t, h);
    }
  }

  lemma {:induction false} RememberedRun(t: Table, acc: Account, more: seq<Hit>, key: string, limit: nat)
    requires Legal(t, more) && InWindow(t, more) && Unshed(t, more, key) && LimitFor(more, key, limit)
    requires |t.counts| <= TABLE_MAX && Remembered(t, acc, key, limit)
    ensures AccountOf(t, acc, more, key).admitted <= limit
    decreases |more|
  {
    hide Key, LimitOf, Serves, Charge, Sheds;
    if more != [] {
      assert Key(more[0].req) == key ==> LimitOf(more[0].req) == limit;
      RememberedStep(t, acc, more[0], key, limit);
      RememberedRun(more[0].after, Charge(t, acc, more[0], key), more[1..], key, limit);
    }
  }

  lemma SubsetOfSize(s: set<string>, n: nat) returns (sub: set<string>)
    requires n <= |s|
    ensures sub <= s && |sub| == n
  {
    if n == 0 {
      sub := {};
    } else {
      var x :| x in s;
      var rest := SubsetOfSize(s - {x}, n - 1);
      sub := rest + {x};
    }
  }

  /** A key that finds the table full may find its own new entry shed and counted once. */
  lemma AskOverflows(t: Table, r: Request) returns (h: Hit)
    requires |t.counts| == TABLE_MAX && Key(r) !in t.counts && !NewWindow(t, r.now) && LimitOf(r) >= 1
    ensures Serves(t, h) && h.req == r && h.admitted && h.after.start == t.start
    ensures Get(h.after.counts, Key(r)) == 1 && |h.after.counts| <= TABLE_MAX
  {
    hide Key, LimitOf;
    var key, bumped := Key(r), Bump(t.counts, Key(r));
    BumpSize(t.counts, key);
    assert bumped.Keys - {key} == t.counts.Keys;
    var kept := SubsetOfSize(t.counts.Keys, 513);
    var left := Bump(Keep(bumped, kept), key);
    assert Keep(bumped, kept).Keys == kept;
    BumpSize(Keep(bumped, kept), key);
    assert kept <= bumped.Keys && |kept| == |bumped| - |bumped| / 2 && left == Bump(Keep(bumped, kept), key);
    assert Shed(bumped, key, left);
    h := Hit(r, true, true, Table(left, t.start));
  }

  /** Below its limit a key can be asked for once more, admitted, and counted once. */
  lemma AskOnce(t: Table, r: Request) returns (h: Hit)
    requires |t.counts| <= TABLE_MAX && !NewWindow(t, r.now) && Get(t.counts, Key(r)) < LimitOf(r)
    ensures Serves(t, h) && h.req == r && h.admitted && h.after.start == t.start
    ensures Get(h.after.counts, Key(r)) == Get(t.counts, Key(r)) + 1 && |h.after.counts| <= TABLE_MAX
  {
    hide Key, LimitOf;
    BumpSize(t.counts, Key(r));
    if |Bump(t.counts, Key(r))| > TABLE_MAX {
      h := AskOverflows(t, r);
    } else {
      h := Hit(r, true, false, Table(Bump(t.counts, Key(r)), t.start));
    }
  }

  /** At any instant of the window the key can be asked for until the table counts its limit. */
  lemma {:induction false} AskOn(t: Table, acc: Account, r: Request) returns (more: seq<Hit>)
    requires |t.counts| <= TABLE_MAX && !NewWindow(t, r.now) && Get(t.counts, Key(r)) <= LimitOf(r)
    ensures Legal(t, more) && InWindow(t, more) && Unshed(t, more, Key(r))
    ensures forall i :: 0 <= i < |more| ==> more[i].req == r
    ensures AccountOf(t, acc, more, Key(r)).admitted == acc.admitted + LimitOf(r) - Get(t.counts, Key(r))
    decreases LimitOf(r) - Get(t.counts, Key(r))
  {
    hide Key, LimitOf, Serves;
    if Get(t.counts, Key(r)) == LimitOf(r) {
      more := [];
    } else {
      var h := AskOnce(t, r);
      var rest := AskOn(h.after, Charge(t, acc, h, Key(r)), r);
      more := [h] + rest;
      assert more[1..] == rest;
    }
  }

  /** For any table and account of a key: its limit holds from here on exactly when the table remembers its admissions. */
  lemma HeldExactly(t: Table, acc: Account, r: Request)
    requires |t.counts| <= TABLE_MAX
    ensures HeldToLimit(t, acc, Key(r), LimitOf(r)) <==> Remembered(t, acc, Key(r), LimitOf(r))
  {
    hide Key, LimitOf, Legal, AccountOf;
    var key, limit := Key(r), LimitOf(r);
    if Remembered(t, acc, key, limit) {
      forall more | Legal(t, more) && InWindow(t, more) && Unshed(t, more, key)
        ensures AccountOf(t, acc, more, key).admitted <= limit
      {
        OneLimitPerKey(more, r);
        RememberedRun(t, acc, more, key, limit);
      }
    } else if acc.admitted > limit {
      NothingMore(t, acc, key);
    } else {
      var now := r.(now := t.start);
      SameKey(r, t.start);
      var more := AskOn(t, acc, now);
      assert AccountOf(t, acc, more, key).admitted > limit;
    }
  }

  lemma NothingMore(t: Table, acc: Account, key: string)
    ensures Legal(t, []) && InWindow(t, []) && Unshed(t, [], key) && AccountOf(t, acc, [], key) == acc
  {
  }

  lemma SameKey(r: Request, now: int)
    ensures Key(r.(now := now)) == Key(r) && LimitOf(r.(now := now)) == LimitOf(r)
  {
  }

  /**
   Exactly when the limit of a key holds: after every run of requests from
   start-up, it holds through every continuation of the window in which the
   key's count is not shed, if and only if the table still counts at least as
   many requests of the key as were admitted, and those are within the limit.
   */
  lemma RateExact(hits: seq<Hit>, r: Request)
    requires Legal(FRESH, hits)
    ensures var t, acc := LastTable(FRESH, hits), AccountOf(FRESH, NO_ACCOUNT, hits, Key(r));
      && (HeldToLimit(t, acc, Key(r), LimitOf(r)) <==> acc.admitted <= Min(Get(t.counts, Key(r)), LimitOf(r)))
      && (acc.sheds == 0 ==> HeldToLimit(t, acc, Key(r), LimitOf(r)))
  {
    hide Key, LimitOf, Legal, AccountOf, HeldToLimit;
    OneLimitPerKey(hits, r);
    AccountRun(FRESH, NO_ACCOUNT, hits, Key(r), LimitOf(r));
    HeldExactly(LastTable(FRESH, hits), AccountOf(FRESH, NO_ACCOUNT, hits, Key(r)), r);
  }

  /** What one shed count costs: the limit is lost exactly when a request of the key had been admitted in the window. */
  lemma ShedCostsExactly(t: Table, acc: Account, h: Hit, r: Request)
    requires |t.counts| <= TABLE_MAX && Serves(t, h) && Sheds(t, h, Key(r))
    ensures HeldToLimit(h.after, Charge(t, acc, h, Key(r)), Key(r), LimitOf(r)) <==> acc.admitted == 0
  {
    hide Key, LimitOf, HeldToLimit, Serves;
    EvictionShape(t, h);
    HeldExactly(h.after, Charge(t, acc, h, Key(r)), r);
  }

  // ----- per-user limiter

  datatype UserHit = UserHit(now: int, user: string, admitted: bool, cleared: bool, after: Table)

  /** Past the maximum the whole table goes, and with it the count of the request at hand. */
  ghost predicate UserServes(t: Table, h: UserHit) {
    var open := Opened(t, h.now);
    var bumped := Bump(open.counts, h.user);
    && h.cleared == (|bumped| > USER_TABLE_MAX)
    && h.after == Table(if h.cleared then map[] else bumped, open.start)
    && h.admitted == (h.cleared || bumped[h.user] <= USER_LIMIT)
  }

  class UserLimiter {
    var counts: map<string, nat>
    var start: int

    constructor ()
      ensures counts == map[] && start == 0
    {
      counts, start := map[], 0;
    }

    method Request(now: int, user: string) returns (admitted: bool, cleared: bool)
      modifies this
      ensures UserServes(Table(old(counts), old(start)), UserHit(now, user, admitted, cleared, Table(counts, start)))
    {
      if now - start > WINDOW {
        counts := map[];
        start := now;
      }
      var count := Get(counts, user) + 1;
      counts := counts[user := count];
      cleared := |counts| > USER_TABLE_MAX;
      if cleared {
        counts := map[];
        count := 1;
      }
      admitted := count <= USER_LIMIT;
    }
  }

  /** The same sixty seconds for users; a first request of a window is admitted. */
  lemma UserWindowLasts(t: Table, h: UserHit)
    requires UserServes(t, h)
    ensures h.now - t.start > 60 ==> h.after == Table(map[h.user := 1], h.now) && h.admitted
    ensures h.now - t.start <= 60 ==> h.after.start == t.start
  {
    if h.now - t.start > 60 {
      BumpSize(map[], h.user);
      assert Bump(map[], h.user) == map[h.user := 1];
    }
  }

  ghost predicate UserLegal(t: Table, hits: seq<UserHit>)
    decreases |hits|
  {
    hits == [] || (UserServes(t, hits[0]) && UserLegal(hits[0].after, hits[1..]))
  }

  function UserCharge(t: Table, acc: Account, h: UserHit, user: string): Account {
    var base := if NewWindow(t, h.now) then NO_ACCOUNT else acc;
    Account(base.requests + 1,
            base.evictions + (if h.cleared then 1 else 0),
            base.asked + (if h.user == user then 1 else 0),
            base.admitted + (if h.user == user && h.admitted then 1 else 0),
            base.sheds + (if Forgets(t, h, user) then 1 else 0))
  }

  function UserAccountOf(t: Table, acc: Account, hits: seq<UserHit>, user: string): Account
    decreases |hits|
  {
    if hits == [] then acc else UserAccountOf(hits[0].after, UserCharge(t, acc, hits[0], user), hits[1..], user)
  }

  ghost predicate UserAccountOk(t: Table, acc: Account, user: string) {
    && |t.counts| <= USER_TABLE_MAX
    && |t.counts| + 513 * acc.evictions <= acc.requests
    && acc.sheds <= acc.evictions
    && acc.admitted <= USER_LIMIT * acc.sheds + Min(Get(t.counts, user), USER_LIMIT)
    && (acc.evictions == 0 ==> acc.asked == Get(t.counts, user) && acc.admitted == Min(acc.asked, USER_LIMIT))
  }

  lemma {:induction false} UserRun(t: Table, acc: Account, hits: seq<UserHit>, user: string)
    requires UserLegal(t, hits) && UserAccountOk(t, acc, user)
    ensures UserAccountOk(if hits == [] then t else hits[|hits| - 1].after, UserAccountOf(t, acc, hits, user), user)
    decreases |hits|
  {
    if hits != [] {
      BumpSize(Opened(t, hits[0].now).counts, hits[0].user);
      UserRun(hits[0].after, UserCharge(t, acc, hits[0], user), hits[1..], user);
    }
  }

  /** The same bound for users: a clearing of the table costs 513 requests, and one more limit for users it counted. */
  lemma UserRateBound(hits: seq<UserHit>, user: string)
    requires UserLegal(FRESH, hits)
    ensures var acc := UserAccountOf(FRESH, NO_ACCOUNT, hits, user);
      && acc.admitted <= 1200 * (1 + acc.sheds) && acc.sheds <= acc.evictions
      && (acc.evictions == 0 ==> acc.admitted == Min(acc.asked, 1200))
      && (hits != [] ==> |hits[|hits| - 1].after.counts| <= 512)
      && 513 * acc.evictions <= acc.requests
  {
    UserRun(FRESH, NO_ACCOUNT, hits, user);
  }

  // ----- exactly when a user's limit holds from here on

  /** The table is cleared while it counts the user, the request at hand included. */
  predicate Forgets(t: Table, h: UserHit, user: string) {
    h.cleared && (h.user == user || user in t.counts)
  }

  predicate UserStretch(t: Table, hits: seq<UserHit>, user: string)
    decreases |hits|
  {
    hits == [] ||
    (!NewWindow(t, hits[0].now) && !Forgets(t, hits[0], user) && UserStretch(hits[0].after, hits[1..], user))
  }

  ghost predicate UserHeldToLimit(t: Table, acc: Account, user: string) {
    forall more | UserLegal(t, more) && UserStretch(t, more, user) ::
      UserAccountOf(t, acc, more, user).admitted <= USER_LIMIT
  }

  lemma {:induction false} UserRemembered(t: Table, acc: Account, more: seq<UserHit>, user: string)
    requires UserLegal(t, more) && UserStretch(t, more, user) && Remembered(t, acc, user, USER_LIMIT)
    ensures UserAccountOf(t, acc, more, user).admitted <= USER_LIMIT
    decreases |more|
  {
    if more != [] {
      UserRemembered(more[0].after, UserCharge(t, acc, more[0], user), more[1..], user);
    }
  }

  /** While the table has room for the user, it can go on asking until the table counts the limit. */
  lemma {:induction false} UserAsksOn(t: Table, acc: Account, user: string) returns (more: seq<UserHit>)
    requires |t.counts| <= USER_TABLE_MAX && (user in t.counts || |t.counts| < USER_TABLE_MAX)
    requires Get(t.counts, user) <= USER_LIMIT
    ensures UserLegal(t, more) && UserStretch(t, more, user)
    ensures UserAccountOf(t, acc, more, user).admitted == acc.admitted + USER_LIMIT - Get(t.counts, user)
    decreases USER_LIMIT - Get(t.counts, user)
  {
    if Get(t.counts, user) == USER_LIMIT {
      more := [];
    } else {
      BumpSize(t.counts, user);
      var h := UserHit(t.start, user, true, false, Table(Bump(t.counts, user), t.start));
      var rest := UserAsksOn(h.after, UserCharge(t, acc, h, user), user);
      more := [h] + rest;
      assert more[1..] == rest;
    }
  }

  lemma LongerThanAll(names: set<string>) returns (n: nat)
    ensures forall x :: x in names ==> |x| < n
  {
    if names == {} {
      n := 0;
    } else {
      var x :| x in names;
      var m := LongerThanAll(names - {x});
      n := m + |x| + 1;
    }
  }

  /** A full table that does not count the user is cleared by anybody new, at no cost to the user. */
  lemma SomebodyNew(t: Table, user: string) returns (h: UserHit)
    requires |t.counts| == USER_TABLE_MAX && user !in t.counts
    ensures UserServes(t, h) && h.now == t.start && h.user != user && h.after == Table(map[], t.start)
    ensures !Forgets(t, h, user)
  {
    var n := LongerThanAll(t.counts.Keys + {user});
    var stranger := seq(n, _ => 'x');
    BumpSize(t.counts, stranger);
    h := UserHit(t.start, stranger, true, true, Table(map[], t.start));
  }

  lemma UserPastLimit(t: Table, acc: Account, user: string) returns (more: seq<UserHit>)
    requires |t.counts| <= USER_TABLE_MAX && Get(t.counts, user) < acc.admitted <= USER_LIMIT
    ensures UserLegal(t, more) && UserStretch(t, more, user)
    ensures UserAccountOf(t, acc, more, user).admitted > USER_LIMIT
  {
    if user in t.counts || |t.counts| < USER_TABLE_MAX {
      more := UserAsksOn(t, acc, user);
    } else {
      var h := SomebodyNew(t, user);
      var rest := UserAsksOn(h.after, UserCharge(t, acc, h, user), user);
      more := [h] + rest;
      assert more[1..] == rest;
    }
  }

  /**
   Exactly when a user's limit holds: after every run from start-up, through
   every continuation of the window in which the table does not forget the user,
   if and only if the table still counts as many requests as were admitted, and
   those are within the limit.
   */
  lemma UserRateExact(hits: seq<UserHit>, user: string)
    requires UserLegal(FRESH, hits)
    ensures var t := if hits == [] then FRESH else hits[|hits| - 1].after;
      var acc := UserAccountOf(FRESH, NO_ACCOUNT, hits, user);
      UserHeldToLimit(t, acc, user) <==> acc.admitted <= Min(Get(t.counts, user), USER_LIMIT)
  {
    hide UserLegal, UserAccountOf, UserStretch;
    var t := if hits == [] then FRESH else hits[|hits| - 1].after;
    var acc := UserAccountOf(FRESH, NO_ACCOUNT, hits, user);
    UserRun(FRESH, NO_ACCOUNT, hits, user);
    if Remembered(t, acc, user, USER_LIMIT) {
      forall more | UserLegal(t, more) && UserStretch(t, more, user)
        ensures UserAccountOf(t, acc, more, user).admitted <= USER_LIMIT
      {
        UserRemembered(t, acc, more, user);
      }
    } else if acc.admitted > USER_LIMIT {
      NobodyMore(t, acc, user);
    } else {
      var more := UserPastLimit(t, acc, user);
      assert UserAccountOf(t, acc, more, user).admitted > USER_LIMIT;
    }
  }

  lemma NobodyMore(t: Table, acc: Account, user: string)
    ensures UserLegal(t, []) && UserStretch(t, [], user) && UserAccountOf(t, acc, [], user) == acc
  {
  }
}
