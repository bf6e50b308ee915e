/**
 Delimiter matching and function-body extraction in the check scripts: one
 script matches plainly on fully blanked text and cuts the raw text at the
 offsets found, another matches on comment-stripped text while skipping
 literals. Both are related to the lexer's classification of the raw text.
 */
module Delimiters {
  import opened Sums
  import opened Lexer

  /** Characters blanking neither makes nor hides in code. */
  predicate Delimiter(c: char) {
    c != ' ' && c != '\n' && !Quote(c)
  }

  // ----- matching

  /** Plain matching from `i` at nesting `depth`; none when the text ends first. */
  function Match(c: string, i: nat, depth: int, open: char, close: char): Option<nat>
    decreases |c| - i
  {
    if i >= |c| then None
    else if c[i] == open then Match(c, i + 1, depth + 1, open, close)
    else if c[i] == close then
      if depth - 1 == 0 then Some(i) else Match(c, i + 1, depth - 1, open, close)
    else Match(c, i + 1, depth, open, close)
  }

  /** Matching that skips literals, with escapes; `lit` is the quote of the literal it is in. */
  function MatchAware(c: string, i: nat, depth: int, lit: Option<char>, open: char, close: char): Option<nat>
    decreases |c| - i
  {
    if i >= |c| then None
    else if lit.Some? then
      if c[i] == '\\' then MatchAware(c, i + 2, depth, lit, open, close)
      else MatchAware(c, i + 1, depth, if c[i] == lit.value then None else lit, open, close)
    else if Quote(c[i]) then MatchAware(c, i + 1, depth, Some(c[i]), open, close)
    else if c[i] == open then MatchAware(c, i + 1, depth + 1, None, open, close)
    else if c[i] == close then
      if depth - 1 == 0 then Some(i) else MatchAware(c, i + 1, depth - 1, None, open, close)
    else MatchAware(c, i + 1, depth, None, open, close)
  }

  method MatchDelims(c: string, openPos: nat, open: char, close: char) returns (r: int)
    ensures Match(c, openPos, 0, open, close) == if r >= 0 then Some(r) else None
    ensures r >= -1
  {
    var depth := 0;
    var i := openPos;
    while i < |c|
      invariant openPos <= i
      invariant Match(c, openPos, 0, open, close) == Match(c, i, depth, open, close)
      decreases |c| - i
    {
      if c[i] == open {
        depth := depth + 1;
      } else if c[i] == close {
        depth := depth - 1;
        if depth == 0 {
          return i;
        }
      }
      i := i + 1;
    }
    return -1;
  }

  // ----- what a match means

  function Turn(x: char, open: char, close: char): int {
    if x == open then 1 else if x == close then -1 else 0
  }

  /** Opens minus closes in `c[i..k]`. */
  function Depth(c: string, i: nat, k: nat, open: char, close: char): int
    requires i <= k <= |c|
    decreases k - i
  {
    if i == k then 0
    else Turn(c[i], open, close) + Depth(c, i + 1, k, open, close)
  }

  /** `k` closes the block opened at `i`, entered at nesting `depth`. */
  ghost predicate Closes(c: string, i: nat, depth: int, k: nat, open: char, close: char) {
    && i <= k < |c| && c[k] == close
    && depth + Depth(c, i, k + 1, open, close) == 0
    && forall p :: i < p <= k ==> depth + Depth(c, i, p, open, close) > 0
  }

  /**
   From inside a block (positive nesting), or at an opening delimiter, the
   matcher returns exactly the index that closes it, and none when nothing does.
   */
  lemma {:induction false} MatchMeans(c: string, i: nat, depth: int, open: char, close: char, k: nat)
    requires open != close && i <= |c|
    requires depth > 0 || (depth == 0 && i < |c| && c[i] == open)
    ensures Match(c, i, depth, open, close) == Some(k) <==> Closes(c, i, depth, k, open, close)
    decreases |c| - i
  {
    if i < |c| {
      var step := Turn(c[i], open, close);
      if depth + step > 0 {
        MatchMeans(c, i + 1, depth + step, open, close, k);
        if Closes(c, i, depth, k, open, close) {
          ClosesLater(c, i, depth, k, open, close);
        } else if Closes(c, i + 1, depth + step, k, open, close) {
          ClosesEarlier(c, i, depth, k, open, close);
        }
      } else {
        assert Depth(c, i, i + 1, open, close) == step + Depth(c, i + 1, i + 1, open, close);
      }
    }
  }

  lemma ClosesLater(c: string, i: nat, depth: int, k: nat, open: char, close: char)
    requires open != close && i < |c| && Closes(c, i, depth, k, open, close)
    requires depth + Turn(c[i], open, close) > 0
    ensures Closes(c, i + 1, depth + Turn(c[i], open, close), k, open, close)
  {
    assert k != i;
    var d := depth + Turn(c[i], open, close);
    forall p {:trigger Depth(c, i + 1, p, open, close)} | i + 1 < p <= k ensures d + Depth(c, i + 1, p, open, close) > 0 {
      assert depth + Depth(c, i, p, open, close) > 0;
    }
  }

  lemma ClosesEarlier(c: string, i: nat, depth: int, k: nat, open: char, close: char)
    requires open != close && i < |c|
    requires depth + Turn(c[i], open, close) > 0
    requires Closes(c, i + 1, depth + Turn(c[i], open, close), k, open, close)
    ensures Closes(c, i, depth, k, open, close)
  {
    forall p | i < p <= k ensures depth + Depth(c, i, p, open, close) > 0 {
      if p > i + 1 {
        assert depth + Turn(c[i], open, close) + Depth(c, i + 1, p, open, close) > 0;
      }
    }
  }

  // ----- the two matchers agree

  function InLiteral(m: Mode): Option<char> {
    if m.Quoted? then Some(m.quote) else None
  }

  /** One token further, the plain matcher on blanked text. */
  lemma PlainToken(s: string, i: nat, m: Mode, depth: int, open: char, close: char)
    requires Stands(s, i, m) && i < |s| && !Read(m, s, i).kind.Code? && Delimiter(open) && Delimiter(close)
    ensures Match(StripCode(s), i, depth, open, close) == Match(StripCode(s), i + Read(m, s, i).width, depth, open, close)
  {
    Advance(s, i, m);
  }

  /** The characters of a token in the comment-stripped text. */
  lemma StrippedChars(s: string, i: nat, m: Mode)
    requires Stands(s, i, m) && i < |s|
    ensures var r, t := StripComments(s), Read(m, s, i);
      && r[i] == (if t.kind.Comment? then Blank(s[i]) else s[i])
      && (t.width == 2 ==> r[i + 1] == if t.kind.Comment? then Blank(s[i + 1]) else s[i + 1])
  {
    Advance(s, i, m);
  }

  /** One token further, the literal-aware matcher on comment-stripped text. */
  lemma AwareToken(s: string, i: nat, m: Mode, depth: int, open: char, close: char)
    requires Stands(s, i, m) && i < |s| && !Read(m, s, i).kind.Code? && Delimiter(open) && Delimiter(close)
    ensures var t := Read(m, s, i);
      MatchAware(StripComments(s), i, depth, InLiteral(m), open, close)
        == MatchAware(StripComments(s), i + t.width, depth, InLiteral(t.mode), open, close)
  {
    hide Stands, StripComments;
    StrippedChars(s, i, m);
  }

  /** A code character stands in both texts, is no quote, and leaves the lexer in plain mode. */
  lemma CodeSeen(s: string, i: nat)
    requires i < |s| && KindsOf(s)[i].Code?
    ensures s[i] == StripCode(s)[i] == StripComments(s)[i] && !Quote(s[i])
    ensures Stands(s, i, Plain) && Stands(s, i + 1, Plain)
  {
    StartsPlain(s);
    CodeCharacter(s, 0, Plain, i);
    Advance(s, i, Plain);
  }

  lemma {:induction false} MatchersAgree(s: string, i: nat, m: Mode, depth: int, open: char, close: char)
    requires Stands(s, i, m) && Delimiter(open) && Delimiter(close)
    ensures Match(StripCode(s), i, depth, open, close)
         == MatchAware(StripComments(s), i, depth, InLiteral(m), open, close)
    decreases |s| - i
  {
    hide Stands, StripCode, StripComments, KindsOf;
    if i < |s| {
      var t := Read(m, s, i);
      if t.kind.Code? {
        Advance(s, i, m);
        CodeSeen(s, i);
        MatchersAgree(s, i + 1, Plain, depth + Turn(s[i], open, close), open, close);
      } else {
        Advance(s, i, m);
        PlainToken(s, i, m, depth, open, close);
        AwareToken(s, i, m, depth, open, close);
        MatchersAgree(s, i + t.width, t.mode, depth, open, close);
      }
    }
  }

  // ----- extracting a function body

  predicate Space(c: char) {
    c == ' ' || c == '\t' || c == '\r' || c == '\n'
  }

  function SkipSpace(c: string, j: nat): (k: nat)
    ensures k >= j && (k < |c| ==> !Space(c[k])) && (j <= |c| ==> k <= |c|)
    decreases |c| - j
  {
    if j < |c| && Space(c[j]) then SkipSpace(c, j + 1) else j
  }

  /** Where the brace after the parameter list at `p` stands, if one does. */
  function BlankedBrace(c: string, p: nat): Option<nat> {
    match Match(c, p, 0, '(', ')')
    case None => None
    case Some(k) =>
      var j := SkipSpace(c, k + 1);
      if j < |c| && c[j] == '{' then Some(j) else None
  }

  function StrippedBrace(c: string, p: nat): Option<nat> {
    match MatchAware(c, p, 0, None, '(', ')')
    case None => None
    case Some(k) =>
      var j := SkipSpace(c, k + 1);
      if j < |c| && c[j] == '{' then Some(j) else None
  }

  /**
   The offsets of the body of the first candidate that has one; `opens` are the
   parentheses after the occurrences of the name. An unclosed body means none.
   */
  function BlankedBody(c: string, opens: seq<nat>): Option<(nat, nat)> {
    if opens == [] then None
    else
      match BlankedBrace(c, opens[0])
      case None => BlankedBody(c, opens[1..])
      case Some(j) =>
        match Match(c, j, 0, '{', '}')
        case None => None
        case Some(k) => Some((j, k + 1))
  }

  /** The same on comment-stripped text, where an unclosed body runs to the end. */
  function StrippedBody(c: string, opens: seq<nat>): Option<(nat, nat)> {
    if opens == [] then None
    else
      match StrippedBrace(c, opens[0])
      case None => StrippedBody(c, opens[1..])
      case Some(j) =>
        match MatchAware(c, j, 0, None, '{', '}')
        case None => Some((j, |c|))
        case Some(k) => Some((j, k + 1))
  }

  lemma MatchInside(c: string, i: nat, depth: int, open: char, close: char)
    ensures Match(c, i, depth, open, close).Some? ==>
      i <= Match(c, i, depth, open, close).value < |c| && c[Match(c, i, depth, open, close).value] == close
    decreases |c| - i
  {
    if i < |c| {
      MatchInside(c, i + 1, depth + 1, open, close);
      MatchInside(c, i + 1, depth - 1, open, close);
      MatchInside(c, i + 1, depth, open, close);
    }
  }

  /** Boundaries from the blanked text, content from the raw text of the same length. */
  method ExtractFnBody(text: string, code: string, opens: seq<nat>) returns (body: Option<string>)
    requires |text| == |code|
    ensures match BlankedBody(code, opens)
      case None => body == None
      case Some((j, e)) => j <= e <= |text| && body == Some(text[j..e])
  {
    var m := 0;
    while m < |opens|
      invariant 0 <= m <= |opens| && BlankedBody(code, opens) == BlankedBody(code, opens[m..])
      decreases |opens| - m
    {
      assert opens[m..][0] == opens[m] && opens[m..][1..] == opens[m + 1..];
      var parenClose := MatchDelims(code, opens[m], '(', ')');
      m := m + 1;
      if parenClose < 0 {
        continue;
      }
      var j := parenClose + 1;
      while j < |code| && Space(code[j])
        invariant parenClose + 1 <= j && SkipSpace(code, parenClose + 1) == SkipSpace(code, j)
        decreases |code| - j
      {
        j := j + 1;
      }
      if j < |code| && code[j] == '{' {
        var close := MatchDelims(code, j, '{', '}');
        if close < 0 {
          return None;
        }
        MatchInside(code, j, 0, '{', '}');
        return Some(text[j..close + 1]);
      }
    }
    return None;
  }

  /** The scanning loop both halves of the other extractor use; it stops past the closing delimiter. */
  method ScanAware(code: string, start: nat, open: char, close: char) returns (i: nat, closed: bool)
    requires !Quote(open) && !Quote(close)
    ensures closed ==> i > 0 && MatchAware(code, start, 0, None, open, close) == Some(i - 1) && i <= |code|
    ensures !closed ==> MatchAware(code, start, 0, None, open, close) == None && i >= |code|
  {
    i := start;
    var depth := 0;
    var lit: Option<char> := None;
    while i < |code|
      invariant MatchAware(code, start, 0, None, open, close) == MatchAware(code, i, depth, lit, open, close)
      decreases |code| - i
    {
      var c := code[i];
      if lit.Some? {
        if c == '\\' {
          i := i + 2;
          continue;
        }
        if c == lit.value {
          lit := None;
        }
        i := i + 1;
        continue;
      }
      if c == '"' || c == '\'' {
        lit := Some(c);
      } else if c == open {
        depth := depth + 1;
      } else if c == close {
        depth := depth - 1;
        if depth == 0 {
          return i + 1, true;
        }
      }
      i := i + 1;
    }
    return i, false;
  }

  method ExtractFuncBody(code: string, opens: seq<nat>) returns (body: Option<string>)
    ensures match StrippedBody(code, opens)
      case None => body == None
      case Some((j, e)) => j <= e <= |code| && body == Some(code[j..e])
  {
    var m, n := 0, |code|;
    while m < |opens|
      invariant 0 <= m <= |opens| && StrippedBody(code, opens) == StrippedBody(code, opens[m..])
      decreases |opens| - m
    {
      assert opens[m..][0] == opens[m] && opens[m..][1..] == opens[m + 1..];
      var i, paren := ScanAware(code, opens[m], '(', ')');
      m := m + 1;
      var j := i;
      while j < n && Space(code[j])
        invariant i <= j && SkipSpace(code, i) == SkipSpace(code, j)
        decreases n - j
      {
        j := j + 1;
      }
      if j >= n || code[j] != '{' {
        continue;
      }
      var k, closed := ScanAware(code, j, '{', '}');
      if closed {
        AwareInside(code, j, 0, None, '{', '}');
        return Some(code[j..k]);
      }
      return Some(code[j..n]);
    }
    return None;
  }

  lemma AwareInside(c: string, i: nat, depth: int, lit: Option<char>, open: char, close: char)
    ensures MatchAware(c, i, depth, lit, open, close).Some? ==> i <= MatchAware(c, i, depth, lit, open, close).value < |c|
    decreases |c| - i
  {
    if i < |c| {
      if lit.Some? {
        AwareInside(c, i + 2, depth, lit, open, close);
        AwareInside(c, i + 1, depth, if c[i] == lit.value then None else lit, open, close);
      } else if Quote(c[i]) {
        AwareInside(c, i + 1, depth, Some(c[i]), open, close);
      } else {
        AwareInside(c, i + 1, depth + 1, None, open, close);
        AwareInside(c, i + 1, depth - 1, None, open, close);
        AwareInside(c, i + 1, depth, None, open, close);
      }
    }
  }

  // ----- the two extractors agree, and when they do not

  /** Whitespace in the stripped text is whitespace in the blanked text. */
  lemma SpaceStaysSpace(s: string, i: nat)
    requires i < |s|
    ensures Space(StripComments(s)[i]) ==> Space(StripCode(s)[i])
    ensures !Space(StripComments(s)[i]) ==> (Space(StripCode(s)[i]) <==> KindsOf(s)[i].Literal?)
  {
    if KindsOf(s)[i].Code? {
      CodeCharacter(s, 0, Plain, i);
    }
  }

  /** Skipping space lands on the same place exactly when no literal stands there. */
  lemma {:induction false} GapsAgree(s: string, i: nat)
    requires i <= |s|
    ensures var j := SkipSpace(StripComments(s), i);
      && j <= SkipSpace(StripCode(s), i)
      && (SkipSpace(StripCode(s), i) == j <==> j == |s| || !KindsOf(s)[j].Literal?)
    decreases |s| - i
  {
    hide StripCode, StripComments, KindsOf;
    if i < |s| {
      SpaceStaysSpace(s, i);
      if Space(StripComments(s)[i]) {
        GapsAgree(s, i + 1);
      }
    }
  }

  /** What stands in the gap where skipping space stops, if it is a literal, is its opening quote. */
  lemma {:induction false} GapLiteral(s: string, i: nat, m: Mode)
    requires Stands(s, i, m) && !m.Quoted?
    ensures var j := SkipSpace(StripComments(s), i);
      j < |s| && KindsOf(s)[j].Literal? ==> Quote(StripComments(s)[j])
    decreases |s| - i
  {
    hide Stands, StripComments, KindsOf;
    if i < |s| {
      StrippedChars(s, i, m);
      Advance(s, i, m);
      var t := Read(m, s, i);
      if Space(StripComments(s)[i]) {
        GapLiteral(s, i + t.width, t.mode);
      }
    }
  }

  /** A literal stands between the parameter list at `p` and the brace that the blanked text shows behind it. */
  predicate SeesThrough(s: string, p: nat) {
    match Match(StripCode(s), p, 0, '(', ')')
    case None => false
    case Some(k) =>
      var j := SkipSpace(StripComments(s), k + 1);
      j < |s| && KindsOf(s)[j].Literal? && BlankedBrace(StripCode(s), p).Some?
  }

  predicate CodeParen(s: string, p: nat) {
    p < |s| && KindsOf(s)[p].Code? && s[p] == '('
  }

  lemma MatchersAgreeAt(s: string, p: nat, open: char, close: char)
    requires p < |s| && KindsOf(s)[p].Code? && Delimiter(open) && Delimiter(close)
    ensures Match(StripCode(s), p, 0, open, close) == MatchAware(StripComments(s), p, 0, None, open, close)
  {
    CodeSeen(s, p);
    MatchersAgree(s, p, Plain, 0, open, close);
  }

  lemma DelimiterIsCode(s: string, i: nat)
    requires i < |s| && StripCode(s)[i] == ')'
    ensures KindsOf(s)[i].Code?
  {
  }

  lemma BraceSeen(s: string, j: nat)
    requires j < |s|
    ensures KindsOf(s)[j].Literal? || (StripCode(s)[j] == '{' <==> StripComments(s)[j] == '{')
  {
  }

  /** Exactly when a candidate leads both extractors to the same brace, or neither to any. */
  lemma CandidatesAgree(s: string, p: nat)
    requires CodeParen(s, p)
    ensures BlankedBrace(StripCode(s), p) == StrippedBrace(StripComments(s), p) <==> !SeesThrough(s, p)
    ensures SeesThrough(s, p) ==> StrippedBrace(StripComments(s), p) == None
  {
    hide Stands, StripCode, StripComments, KindsOf, Match, MatchAware, SkipSpace;
    MatchersAgreeAt(s, p, '(', ')');
    var k := Match(StripCode(s), p, 0, '(', ')');
    if k.Some? {
      MatchInside(StripCode(s), p, 0, '(', ')');
      DelimiterIsCode(s, k.value);
      CodeSeen(s, k.value);
      GapsAgree(s, k.value + 1);
      GapLiteral(s, k.value + 1, Plain);
      var j := SkipSpace(StripComments(s), k.value + 1);
      if j < |s| {
        BraceSeen(s, j);
      }
    }
  }

  /** A brace the blanked text shows is code, so both matchers close it at the same place. */
  lemma BlocksAgree(s: string, p: nat)
    requires BlankedBrace(StripCode(s), p).Some?
    ensures var j := BlankedBrace(StripCode(s), p).value;
      && j < |s| && s[j] == '{' && KindsOf(s)[j].Code?
      && MatchAware(StripComments(s), j, 0, None, '{', '}') == Match(StripCode(s), j, 0, '{', '}')
  {
    MatchersAgreeAt(s, BlankedBrace(StripCode(s), p).value, '{', '}');
  }

  /**
   The extractors agree: they find the same body when it is closed; where it is
   not, one reports none and the other the rest of the text; or both find none.
   */
  predicate SameBody(s: string, opens: seq<nat>) {
    match StrippedBody(StripComments(s), opens)
    case None => BlankedBody(StripCode(s), opens) == None
    case Some((j, e)) =>
      if Match(StripCode(s), j, 0, '{', '}').Some? then BlankedBody(StripCode(s), opens) == Some((j, e))
      else BlankedBody(StripCode(s), opens) == None && e == |s|
  }

  /** For every text and every list of candidates in code behind which no literal hides a brace. */
  lemma {:induction false} ExtractorsAgree(s: string, opens: seq<nat>)
    requires forall i :: 0 <= i < |opens| ==> CodeParen(s, opens[i]) && !SeesThrough(s, opens[i])
    ensures SameBody(s, opens)
  {
    hide StripCode, StripComments, KindsOf, Match, MatchAware, SkipSpace;
    hide BlankedBrace, StrippedBrace, SeesThrough, CodeParen;
    if opens != [] {
      assert CodeParen(s, opens[0]) && !SeesThrough(s, opens[0]);
      CandidatesAgree(s, opens[0]);
      if BlankedBrace(StripCode(s), opens[0]).Some? {
        BlocksAgree(s, opens[0]);
      }
      ExtractorsAgree(s, opens[1..]);
    }
  }

  /** The brace behind a candidate is that of a closed block. */
  predicate ClosedAt(s: string, brace: Option<nat>) {
    brace.Some? && Match(StripCode(s), brace.value, 0, '{', '}').Some?
  }

  /** The first candidate with a brace in the stripped text has a closed block. */
  predicate FindsClosed(s: string, opens: seq<nat>) {
    opens != [] &&
    var brace := StrippedBrace(StripComments(s), opens[0]);
    if brace.Some? then ClosedAt(s, brace) else FindsClosed(s, opens[1..])
  }

  /**
   Where the extractors part: the first candidate with a brace in the blanked
   text has it behind a literal, and its block is closed, or a later one is found.
   */
  predicate Parts(s: string, opens: seq<nat>) {
    opens != [] &&
    var brace := BlankedBrace(StripCode(s), opens[0]);
    if brace.None? then Parts(s, opens[1..])
    else SeesThrough(s, opens[0]) && (ClosedAt(s, brace) || FindsClosed(s, opens[1..]))
  }

  /** Between a parameter list and its brace there is only space. */
  lemma {:induction false} OnlySpace(c: string, i: nat, x: nat)
    requires i <= x < SkipSpace(c, i)
    ensures x < |c| && Space(c[x])
    decreases |c| - i
  {
    if i < x {
      OnlySpace(c, i + 1, x);
    }
  }

  /** A brace seen through a literal is never the one that follows another candidate directly. */
  lemma BracesDiffer(s: string, p: nat, q: nat)
    requires CodeParen(s, p) && CodeParen(s, q) && SeesThrough(s, p)
    ensures StrippedBrace(StripComments(s), q) != BlankedBrace(StripCode(s), p)
  {
    hide Stands, StripCode, StripComments, KindsOf, Match, MatchAware, SkipSpace;
    var k := Match(StripCode(s), p, 0, '(', ')').value;
    var l := Match(StripCode(s), q, 0, '(', ')');
    var lit, brace := SkipSpace(StripComments(s), k + 1), BlankedBrace(StripCode(s), p).value;
    MatchInside(StripCode(s), p, 0, '(', ')');
    DelimiterIsCode(s, k);
    CodeSeen(s, k);
    GapLiteral(s, k + 1, Plain);
    GapsAgree(s, k + 1);
    MatchersAgreeAt(s, q, '(', ')');
    if StrippedBrace(StripComments(s), q) == Some(brace) {
      MatchInside(StripCode(s), q, 0, '(', ')');
      if l.value < lit {
        OnlySpace(StripComments(s), l.value + 1, lit);
      } else {
        OnlySpace(StripCode(s), k + 1, l.value);
      }
    }
  }

  /** What the stripped extractor finds stands behind one of the candidates, and its block is closed as both see it. */
  lemma {:induction false} StrippedFinds(s: string, opens: seq<nat>)
    requires forall i :: 0 <= i < |opens| ==> CodeParen(s, opens[i])
    ensures match StrippedBody(StripComments(s), opens)
      case None => !FindsClosed(s, opens)
      case Some((j, e)) =>
        && (FindsClosed(s, opens) <==> ClosedAt(s, Some(j)))
        && (!FindsClosed(s, opens) ==> e == |s|)
        && exists i :: 0 <= i < |opens| && StrippedBrace(StripComments(s), opens[i]) == Some(j)
  {
    hide StripCode, StripComments, KindsOf, Match, MatchAware, SkipSpace;
    hide BlankedBrace, StrippedBrace, SeesThrough, CodeParen;
    if opens != [] {
      assert CodeParen(s, opens[0]);
      if StrippedBrace(StripComments(s), opens[0]).Some? {
        StrippedBraceIsBlanked(s, opens[0]);
        BlocksAgree(s, opens[0]);
      } else {
        StrippedFinds(s, opens[1..]);
        if StrippedBody(StripComments(s), opens[1..]).Some? {
          var j := StrippedBody(StripComments(s), opens[1..]).value.0;
          var i :| 0 <= i < |opens[1..]| && StrippedBrace(StripComments(s), opens[1..][i]) == Some(j);
          assert StrippedBrace(StripComments(s), opens[i + 1]) == Some(j);
        }
      }
    }
  }

  lemma StrippedBraceIsBlanked(s: string, p: nat)
    requires CodeParen(s, p) && StrippedBrace(StripComments(s), p).Some?
    ensures BlankedBrace(StripCode(s), p) == StrippedBrace(StripComments(s), p)
  {
    hide StripCode, StripComments, KindsOf, Match, MatchAware, SkipSpace, BlankedBrace, StrippedBrace;
    CandidatesAgree(s, p);
  }

  /** A first candidate whose brace is seen through a literal decides whether the extractors agree. */
  lemma SeenThroughDecides(s: string, opens: seq<nat>)
    requires forall i :: 0 <= i < |opens| ==> CodeParen(s, opens[i])
    requires opens != [] && SeesThrough(s, opens[0])
    ensures SameBody(s, opens) <==> !Parts(s, opens)
  {
    var p, rest := opens[0], opens[1..];
    var brace := BlankedBrace(StripCode(s), p);
    assert CodeParen(s, p) && brace.Some?;
    hide StripCode, StripComments, KindsOf, Match, MatchAware, SkipSpace;
    hide BlankedBrace, StrippedBrace, SeesThrough, CodeParen;
    CandidatesAgree(s, p);
    assert StrippedBody(StripComments(s), opens) == StrippedBody(StripComments(s), rest);
    StrippedFinds(s, rest);
    if StrippedBody(StripComments(s), rest).Some? {
      var j := StrippedBody(StripComments(s), rest).value.0;
      var i :| 0 <= i < |rest| && StrippedBrace(StripComments(s), rest[i]) == Some(j);
      assert CodeParen(s, opens[i + 1]);
      BracesDiffer(s, p, rest[i]);
    }
  }

  /** For every text and every list of candidates in code: the extractors agree exactly when they do not part so. */
  lemma {:induction false} ExtractorsAgreeExactly(s: string, opens: seq<nat>)
    requires forall i :: 0 <= i < |opens| ==> CodeParen(s, opens[i])
    ensures SameBody(s, opens) <==> !Parts(s, opens)
  {
    hide StripCode, StripComments, KindsOf, Match, MatchAware, SkipSpace;
    hide BlankedBrace, StrippedBrace, SeesThrough, CodeParen;
    if opens != [] {
      assert CodeParen(s, opens[0]);
      CandidatesAgree(s, opens[0]);
      if SeesThrough(s, opens[0]) {
        SeenThroughDecides(s, opens);
      } else if BlankedBrace(StripCode(s), opens[0]).Some? {
        BlocksAgree(s, opens[0]);
      } else {
        ExtractorsAgreeExactly(s, opens[1..]);
      }
    }
  }

  lemma GapKinds(g: string)
    requires g == ['(', ')', '"', '"', '{', '}']
    ensures KindsOf(g) == [Code, Code, Literal, Literal, Code, Code]
  {
    hide Stands, KindsOf;
    StartsPlain(g);
    Advance(g, 0, Plain);
    Advance(g, 1, Plain);
    Advance(g, 2, Plain);
    Advance(g, 3, Quoted('"'));
    Advance(g, 4, Plain);
    Advance(g, 5, Plain);
  }

  lemma GapTexts(g: string)
    requires g == ['(', ')', '"', '"', '{', '}']
    ensures StripCode(g) == ['(', ')', ' ', ' ', '{', '}'] && StripComments(g) == g
  {
    GapKinds(g);
  }

  /** Where a literal does stand in the gap, the extractors part: the blanked text sees through it. */
  lemma LiteralInGap(g: string)
    requires g == ['(', ')', '"', '"', '{', '}']
    ensures StrippedBody(StripComments(g), [0]) == None && BlankedBody(StripCode(g), [0]) == Some((4, 6))
  {
    hide StripCode, StripComments;
    GapTexts(g);
    var c := StripCode(g);
    assert Match(c, 1, 1, '(', ')') == Some(1) == Match(c, 0, 0, '(', ')');
    assert MatchAware(g, 1, 1, None, '(', ')') == Some(1) == MatchAware(g, 0, 0, None, '(', ')');
    assert SkipSpace(c, 4) == 4 == SkipSpace(c, 3) == SkipSpace(c, 2);
    assert SkipSpace(g, 2) == 2;
    assert Match(c, 5, 1, '{', '}') == Some(5) == Match(c, 4, 0, '{', '}');
    assert [0][1..] == [];
  }

  /** The slice cut from the raw text is a block: brace to brace, nested inside all the way. */
  lemma RawSliceIsBlock(s: string, opens: seq<nat>, j: nat, e: nat)
    requires BlankedBody(StripCode(s), opens) == Some((j, e))
    ensures j + 1 < e <= |s| && s[j] == '{' && s[e - 1] == '}'
    ensures KindsOf(s)[j].Code? && KindsOf(s)[e - 1].Code?
    ensures Depth(StripCode(s), j, e, '{', '}') == 0
    ensures forall p :: j < p < e ==> Depth(StripCode(s), j, p, '{', '}') > 0
  {
    if opens != [] {
      match BlankedBrace(StripCode(s), opens[0])
      case None => RawSliceIsBlock(s, opens[1..], j, e);
      case Some(b) => MatchMeans(StripCode(s), b, 0, '{', '}', e - 1);
    }
  }

  // ----- what the extractors look for, told without them

  predicate Blankness(c: char) {
    c in {' ', '\t', '\r', '\n'}
  }

  /** The parameter list opened at `p` closes, and only space stands between it and the brace at `j`. */
  ghost predicate Defines(c: string, p: nat, j: nat) {
    exists k: nat ::
      && Closes(c, p, 0, k, '(', ')') && k < j < |c| && c[j] == '{'
      && forall x :: k < x < j ==> Blankness(c[x])
  }

  lemma {:induction false} SkipTo(c: string, i: nat, j: nat)
    requires i <= j < |c| && !Space(c[j]) && forall x :: i <= x < j ==> Space(c[x])
    ensures SkipSpace(c, i) == j
    decreases j - i
  {
    if i < j {
      SkipTo(c, i + 1, j);
    }
  }

  lemma BraceMeans(c: string, p: nat, j: nat)
    requires p < |c| && c[p] == '('
    ensures BlankedBrace(c, p) == Some(j) <==> Defines(c, p, j)
  {
    hide Match, Closes;
    var m := Match(c, p, 0, '(', ')');
    if BlankedBrace(c, p) == Some(j) {
      MatchMeans(c, p, 0, '(', ')', m.value);
      forall x | m.value < x < j ensures Blankness(c[x]) {
        OnlySpace(c, m.value + 1, x);
      }
    }
    if Defines(c, p, j) {
      var k: nat :| Closes(c, p, 0, k, '(', ')') && k < j < |c| && c[j] == '{' && forall x :: k < x < j ==> Blankness(c[x]);
      MatchMeans(c, p, 0, '(', ')', k);
      SkipTo(c, k + 1, j);
    }
  }

  lemma NoBraceMeans(c: string, p: nat)
    requires p < |c| && c[p] == '('
    ensures BlankedBrace(c, p).None? <==> forall x: nat :: !Defines(c, p, x)
  {
    hide Match, Closes, BlankedBrace, Defines;
    forall x: nat ensures BlankedBrace(c, p) == Some(x) <==> Defines(c, p, x) {
      BraceMeans(c, p, x);
    }
    if BlankedBrace(c, p).Some? {
      assert Defines(c, p, BlankedBrace(c, p).value);
    }
  }

  /** The body at `j..e` is that of candidate `i`, and no candidate before has one. */
  ghost predicate BodyOf(c: string, opens: seq<nat>, i: nat, j: nat, e: nat) {
    && i < |opens| && Defines(c, opens[i], j) && e > 0 && Closes(c, j, 0, e - 1, '{', '}')
    && forall h, x: nat :: 0 <= h < i ==> !Defines(c, opens[h], x)
  }

  lemma {:induction false} FoundBody(c: string, opens: seq<nat>, j: nat, e: nat) returns (i: nat)
    requires forall h :: 0 <= h < |opens| ==> opens[h] < |c| && c[opens[h]] == '('
    requires BlankedBody(c, opens) == Some((j, e))
    ensures BodyOf(c, opens, i, j, e)
  {
    hide Match, Closes, BlankedBrace, Defines;
    NoBraceMeans(c, opens[0]);
    if BlankedBrace(c, opens[0]).Some? {
      i := 0;
      BraceMeans(c, opens[0], j);
      BraceInside(c, opens[0]);
      MatchMeans(c, j, 0, '{', '}', e - 1);
    } else {
      var n := FoundBody(c, opens[1..], j, e);
      i := n + 1;
      forall h, x: nat | 0 <= h < i ensures !Defines(c, opens[h], x) {
        if h > 0 {
          assert opens[h] == opens[1..][h - 1];
        }
      }
    }
  }

  lemma BraceInside(c: string, p: nat)
    requires BlankedBrace(c, p).Some?
    ensures BlankedBrace(c, p).value < |c| && c[BlankedBrace(c, p).value] == '{'
  {
  }

  lemma {:induction false} BodyFound(c: string, opens: seq<nat>, i: nat, j: nat, e: nat)
    requires forall h :: 0 <= h < |opens| ==> opens[h] < |c| && c[opens[h]] == '('
    requires BodyOf(c, opens, i, j, e)
    ensures BlankedBody(c, opens) == Some((j, e))
    decreases |opens|
  {
    hide Match, Closes, BlankedBrace, Defines;
    NoBraceMeans(c, opens[0]);
    if i == 0 {
      BraceMeans(c, opens[0], j);
      BraceInside(c, opens[0]);
      MatchMeans(c, j, 0, '{', '}', e - 1);
    } else {
      forall h, x: nat | 0 <= h < i - 1 ensures !Defines(c, opens[1..][h], x) {
        assert opens[1..][h] == opens[h + 1];
      }
      assert forall x: nat :: !Defines(c, opens[0], x);
      BodyFound(c, opens[1..], i - 1, j, e);
    }
  }

  /**
   Exactly what is extracted: the body runs from the brace that follows the first
   candidate's parameter list with nothing but space between, over the earlier
   ones that have none, to the brace that closes it.
   */
  lemma BodyMeans(c: string, opens: seq<nat>, j: nat, e: nat)
    requires forall h :: 0 <= h < |opens| ==> opens[h] < |c| && c[opens[h]] == '('
    ensures BlankedBody(c, opens) == Some((j, e)) <==> exists i: nat :: BodyOf(c, opens, i, j, e)
  {
    hide BlankedBody, BodyOf;
    if BlankedBody(c, opens) == Some((j, e)) {
      var i := FoundBody(c, opens, j, e);
    }
    if i: nat :| BodyOf(c, opens, i, j, e) {
      BodyFound(c, opens, i, j, e);
    }
  }
}
