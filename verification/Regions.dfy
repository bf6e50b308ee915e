/**
 Where comments and literals begin and end, told without the lexer: a text falls
 into regions, each of which runs from its opener to the first thing that ends
 it. The lexer's classification is exactly that of the regions.
 */
module Regions {
  import opened Lexer

  /** No newline in `s[lo..hi]`. */
  predicate OneLine(s: string, lo: nat, hi: nat) {
    hi <= |s| && forall k :: lo <= k < hi ==> s[k] != '\n'
  }

  /** A line comment: from two slashes to the first newline, that included, or to the end of the text. */
  predicate LineRegion(s: string, b: nat, e: nat) {
    && At(s, b, '/', '/') && b + 2 <= e <= |s|
    && if e > b + 2 && s[e - 1] == '\n' then OneLine(s, b + 2, e - 1) else e == |s| && OneLine(s, b + 2, e)
  }

  /** No end of a block comment starts in `s[lo..hi]`. */
  predicate NoBlockEnd(s: string, lo: nat, hi: nat) {
    forall k: nat :: lo <= k < hi ==> !At(s, k, '*', '/')
  }

  /** A block comment: to the first end after its opener, that included, or to the end of the text. */
  predicate BlockRegion(s: string, b: nat, e: nat) {
    && At(s, b, '/', '*') && b + 2 <= e <= |s|
    && if e >= b + 4 && At(s, e - 2, '*', '/') && NoBlockEnd(s, b + 2, e - 2) then true
       else e == |s| && NoBlockEnd(s, b + 2, |s|)
  }

  /** How many backslashes stand directly before `k`, going back no further than `lo`. */
  function Backslashes(s: string, lo: nat, k: nat): nat
    requires k <= |s|
  {
    if k > lo && s[k - 1] == '\\' then 1 + Backslashes(s, lo, k - 1) else 0
  }

  predicate Escaped(s: string, lo: nat, k: nat)
    requires k <= |s|
  {
    Backslashes(s, lo, k) % 2 == 1
  }

  /** No unescaped `q` in `s[lo..hi]`, the literal's content starting at `lo`. */
  predicate NoQuote(s: string, q: char, lo: nat, hi: nat) {
    hi <= |s| && forall k :: lo <= k < hi && s[k] == q ==> Escaped(s, lo, k)
  }

  /** A literal: to the first unescaped quote like the one that opened it, or to the end of the text. */
  predicate LiteralRegion(s: string, b: nat, e: nat) {
    && b < |s| && Quote(s[b]) && b + 1 <= e <= |s|
    && if e > b + 1 && s[e - 1] == s[b] && !Escaped(s, b + 1, e - 1) then NoQuote(s, s[b], b + 1, e - 1)
       else e == |s| && NoQuote(s, s[b], b + 1, e)
  }

  /** Everything else is code, character by character. */
  predicate CodeRegion(s: string, b: nat, e: nat) {
    b < |s| && e == b + 1 && !Quote(s[b]) && !At(s, b, '/', '/') && !At(s, b, '/', '*')
  }

  datatype Region = Region(start: nat, end: nat, kind: Kind)

  predicate IsRegion(s: string, r: Region) {
    match r.kind
    case Code => CodeRegion(s, r.start, r.end)
    case Comment => LineRegion(s, r.start, r.end) || BlockRegion(s, r.start, r.end)
    case Literal => LiteralRegion(s, r.start, r.end)
  }

  /** Regions that cover `s[from..]`, each beginning where the one before ends. */
  predicate Covers(s: string, from: nat, rs: seq<Region>)
    decreases |rs|
  {
    if rs == [] then from == |s|
    else rs[0].start == from && IsRegion(s, rs[0]) && Covers(s, rs[0].end, rs[1..])
  }

  // ----- one region

  lemma {:induction false} LineRun(s: string, i: nat, e: nat)
    requires Stands(s, i, Line) && i <= e <= |s|
    requires if e > i && s[e - 1] == '\n' then OneLine(s, i, e - 1) else e == |s| && OneLine(s, i, e)
    ensures Stands(s, e, Plain) && forall j :: i <= j < e ==> KindsOf(s)[j].Comment?
    decreases e - i
  {
    hide Stands, KindsOf;
    if i == e {
      EndsAnyhow(s);
    } else {
      Advance(s, i, Line);
      if i + 1 < e {
        LineRun(s, i + 1, e);
      } else if e == |s| {
        EndsAnyhow(s);
      }
    }
  }

  lemma {:induction false} BlockRun(s: string, i: nat, e: nat)
    requires Stands(s, i, Block) && i <= e <= |s|
    requires (e >= i + 2 && At(s, e - 2, '*', '/') && NoBlockEnd(s, i, e - 2)) || (e == |s| && NoBlockEnd(s, i, |s|))
    ensures Stands(s, e, Plain) && forall j :: i <= j < e ==> KindsOf(s)[j].Comment?
    decreases e - i
  {
    hide Stands, KindsOf;
    if i == e {
      EndsAnyhow(s);
    } else {
      Advance(s, i, Block);
      if !At(s, i, '*', '/') {
        BlockRun(s, i + 1, e);
      }
    }
  }

  /** From inside a literal whose content starts at `lo`, at a character that is not escaped. */
  lemma {:induction false} LiteralRun(s: string, q: char, lo: nat, i: nat, e: nat)
    requires Stands(s, i, Quoted(q)) && Quote(q) && lo <= i <= e <= |s| && !Escaped(s, lo, i)
    requires NoQuote(s, q, lo, i)
    requires if e > i && s[e - 1] == q && !Escaped(s, lo, e - 1) then NoQuote(s, q, lo, e - 1)
             else e == |s| && NoQuote(s, q, lo, e)
    ensures Stands(s, e, Plain) && forall j :: i <= j < e ==> KindsOf(s)[j].Literal?
    decreases e - i
  {
    hide Stands, KindsOf;
    if i == e {
      EndsAnyhow(s);
    } else {
      Advance(s, i, Quoted(q));
      if s[i] == '\\' && i + 1 < |s| {
        assert Escaped(s, lo, i + 1);
        LiteralRun(s, q, lo, i + 2, e);
      } else if i + 1 == |s| {
        EndsAnyhow(s);
      } else if s[i] != q {
        LiteralRun(s, q, lo, i + 1, e);
      }
    }
  }

  /** From its beginning the lexer reads a region as what it is, and stands in plain mode behind it. */
  lemma RegionRead(s: string, r: Region)
    requires Stands(s, r.start, Plain) && IsRegion(s, r)
    ensures r.start < r.end <= |s| && Stands(s, r.end, Plain)
    ensures forall j :: r.start <= j < r.end ==> KindsOf(s)[j] == r.kind
  {
    hide Stands, KindsOf;
    Advance(s, r.start, Plain);
    match r.kind
    case Code =>
    case Comment =>
      if LineRegion(s, r.start, r.end) {
        LineRun(s, r.start + 2, r.end);
      } else {
        BlockRun(s, r.start + 2, r.end);
      }
    case Literal => LiteralRun(s, s[r.start], r.start + 1, r.start + 1, r.end);
  }

  // ----- the whole text

  lemma {:induction false} RegionsRead(s: string, from: nat, rs: seq<Region>, n: nat, j: nat)
    requires Stands(s, from, Plain) && Covers(s, from, rs) && n < |rs| && rs[n].start <= j < rs[n].end
    ensures j < |s| && KindsOf(s)[j] == rs[n].kind
    decreases |rs|
  {
    hide Stands, KindsOf, IsRegion;
    RegionRead(s, rs[0]);
    if n > 0 {
      RegionsRead(s, rs[0].end, rs[1..], n - 1, j);
    }
  }

  /**
   Exactly what is code, comment and literal: for every text and every way to
   cover it by regions, each character is classified as its region says, and
   the two strippers keep or blank it accordingly.
   */
  lemma KindsAreRegions(s: string, rs: seq<Region>, n: nat, j: nat)
    requires Covers(s, 0, rs) && n < |rs| && rs[n].start <= j < rs[n].end
    ensures j < |s| && KindsOf(s)[j] == rs[n].kind
    ensures StripCode(s)[j] == if rs[n].kind.Code? || s[j] == '\n' then s[j] else ' '
    ensures StripComments(s)[j] == if !rs[n].kind.Comment? || s[j] == '\n' then s[j] else ' '
  {
    StartsPlain(s);
    RegionsRead(s, 0, rs, n, j);
  }

  lemma {:induction false} FindLineEnd(s: string, b: nat, i: nat) returns (e: nat)
    requires At(s, b, '/', '/') && b + 2 <= i <= |s| && OneLine(s, b + 2, i)
    ensures LineRegion(s, b, e)
    decreases |s| - i
  {
    if i == |s| {
      e := i;
    } else if s[i] == '\n' {
      e := i + 1;
    } else {
      e := FindLineEnd(s, b, i + 1);
    }
  }

  lemma {:induction false} FindBlockEnd(s: string, b: nat, i: nat) returns (e: nat)
    requires At(s, b, '/', '*') && b + 2 <= i <= |s| && NoBlockEnd(s, b + 2, i)
    ensures BlockRegion(s, b, e)
    decreases |s| - i
  {
    if i == |s| {
      e := i;
    } else if At(s, i, '*', '/') {
      e := i + 2;
    } else {
      e := FindBlockEnd(s, b, i + 1);
    }
  }

  lemma {:induction false} FindLiteralEnd(s: string, b: nat, i: nat) returns (e: nat)
    requires b < i <= |s| && Quote(s[b]) && NoQuote(s, s[b], b + 1, i)
    ensures LiteralRegion(s, b, e)
    decreases |s| - i
  {
    if i == |s| {
      e := i;
    } else if s[i] == s[b] && !Escaped(s, b + 1, i) {
      e := i + 1;
    } else {
      e := FindLiteralEnd(s, b, i + 1);
    }
  }

  lemma FindRegion(s: string, b: nat) returns (r: Region)
    requires b < |s|
    ensures r.start == b < r.end <= |s| && IsRegion(s, r)
  {
    if At(s, b, '/', '/') {
      var e := FindLineEnd(s, b, b + 2);
      r := Region(b, e, Comment);
    } else if At(s, b, '/', '*') {
      var e := FindBlockEnd(s, b, b + 2);
      r := Region(b, e, Comment);
    } else if Quote(s[b]) {
      var e := FindLiteralEnd(s, b, b + 1);
      r := Region(b, e, Literal);
    } else {
      r := Region(b, b + 1, Code);
    }
  }

  /** Every text is covered by regions, so the classification is complete. */
  lemma {:induction false} EveryTextIsCovered(s: string, from: nat) returns (rs: seq<Region>)
    requires from <= |s|
    ensures Covers(s, from, rs)
    decreases |s| - from
  {
    hide IsRegion;
    if from == |s| {
      rs := [];
    } else {
      var r := FindRegion(s, from);
      var rest := EveryTextIsCovered(s, r.end);
      rs := [r] + rest;
      assert rs[1..] == rest;
    }
  }

  /** The first two slashes in a line, in a text without quotes and block comments, begin a comment to its end. */
  lemma {:induction false} LineCommentsFrom(s: string, i: nat, j: nat)
    requires Stands(s, i, Plain) && i <= j < |s|
    requires forall k :: 0 <= k < |s| ==> !Quote(s[k]) && !At(s, k, '/', '*')
    ensures KindsOf(s)[j].Comment? <==> exists k: nat :: i <= k <= j && At(s, k, '/', '/') && OneLine(s, k, j)
    decreases |s| - i
  {
    hide Stands, KindsOf;
    if At(s, i, '/', '/') {
      var e := FindLineEnd(s, i, i + 2);
      var r := Region(i, e, Comment);
      RegionRead(s, r);
      if j < e {
        assert OneLine(s, i, j);
      } else {
        LineCommentsFrom(s, e, j);
        assert s[e - 1] == '\n';
        forall k: nat | i <= k <= j && At(s, k, '/', '/') && OneLine(s, k, j) ensures k >= e {
        }
      }
    } else {
      RegionRead(s, Region(i, i + 1, Code));
      if i < j {
        LineCommentsFrom(s, i + 1, j);
      }
    }
  }

  /**
   In a text without quotes and block comments a character is in a comment if
   and only if two slashes stand before it, or at it, in its line.
   */
  lemma LineCommentsExactly(s: string, j: nat)
    requires j < |s| && forall k :: 0 <= k < |s| ==> !Quote(s[k]) && !At(s, k, '/', '*')
    ensures KindsOf(s)[j].Comment? <==> exists k: nat :: k <= j && At(s, k, '/', '/') && OneLine(s, k, j)
  {
    StartsPlain(s);
    LineCommentsFrom(s, 0, j);
  }
}
