/**
 The C lexers of the check scripts. One blanks comments and literals, the other
 only comments; both keep every offset. The specification classifies each
 character once, and the two outputs are pointwise functions of that.
 */
module Lexer {

  datatype Mode = Plain | Line | Block | Quoted(quote: char)

  datatype Kind = Code | Comment | Literal

  datatype Token = Token(width: nat, kind: Kind, mode: Mode)

  predicate Quote(c: char) {
    c == '"' || c == '\''
  }

  predicate At(s: string, i: nat, a: char, b: char) {
    i + 1 < |s| && s[i] == a && s[i + 1] == b
  }

  /** The text at `i` would open a comment. */
  predicate Opener(s: string, i: nat) {
    At(s, i, '/', '*') || At(s, i, '/', '/')
  }

  /** The token read at `i` in a mode: its width, what it is, and the mode after it. */
  function Read(m: Mode, s: string, i: nat): (t: Token)
    requires i < |s|
    ensures 1 <= t.width <= 2 && i + t.width <= |s|
  {
    match m
    case Line => Token(1, Comment, if s[i] == '\n' then Plain else Line)
    case Block => if At(s, i, '*', '/') then Token(2, Comment, Plain) else Token(1, Comment, Block)
    case Quoted(q) =>
      if s[i] == '\\' && i + 1 < |s| then Token(2, Literal, m)
      else Token(1, Literal, if s[i] == q then Plain else m)
    case Plain =>
      if At(s, i, '/', '*') then Token(2, Comment, Block)
      else if At(s, i, '/', '/') then Token(2, Comment, Line)
      else if Quote(s[i]) then Token(1, Literal, Quoted(s[i]))
      else Token(1, Code, Plain)
  }

  /** The kinds of the characters from `i` on, read from mode `m`. */
  function Kinds(m: Mode, s: string, i: nat): (ks: seq<Kind>)
    requires i <= |s|
    ensures |ks| == |s| - i
    decreases |s| - i
  {
    if i == |s| then []
    else
      var t := Read(m, s, i);
      seq(t.width, _ => t.kind) + Kinds(t.mode, s, i + t.width)
  }

  function KindsOf(s: string): (ks: seq<Kind>)
    ensures |ks| == |s|
  {
    Kinds(Plain, s, 0)
  }

  function Blank(c: char): char {
    if c == '\n' then '\n' else ' '
  }

  /** Comments and literals blanked. */
  function StripCode(s: string): (r: string)
    ensures |r| == |s|
  {
    seq(|s|, i requires 0 <= i < |s| => if KindsOf(s)[i].Code? then s[i] else Blank(s[i]))
  }

  /** Comments blanked, literals kept. */
  function StripComments(s: string): (r: string)
    ensures |r| == |s|
  {
    seq(|s|, i requires 0 <= i < |s| => if KindsOf(s)[i].Comment? then Blank(s[i]) else s[i])
  }

  /** The lexer stands at `i` in mode `m`. */
  ghost predicate Stands(s: string, i: nat, m: Mode) {
    i <= |s| && KindsOf(s)[i..] == Kinds(m, s, i)
  }

  /** Reading one token tells the kinds of its characters and where the lexer stands next. */
  lemma Advance(s: string, i: nat, m: Mode)
    requires Stands(s, i, m) && i < |s|
    ensures var t := Read(m, s, i);
      && Stands(s, i + t.width, t.mode)
      && KindsOf(s)[i] == t.kind
      && (t.width == 2 ==> KindsOf(s)[i + 1] == t.kind)
  {
    var t := Read(m, s, i);
    var ks := KindsOf(s);
    assert ks[i..][0] == ks[i];
    assert t.width == 2 ==> ks[i..][1] == ks[i + 1];
    assert ks[i + t.width..] == ks[i..][t.width..];
    assert (seq(t.width, _ => t.kind) + Kinds(t.mode, s, i + t.width))[t.width..] == Kinds(t.mode, s, i + t.width);
  }

  /** A code character is read in plain mode, is no quote and opens no comment. */
  lemma {:induction false} CodeCharacter(s: string, i: nat, m: Mode, j: nat)
    requires Stands(s, i, m) && i <= j < |s| && KindsOf(s)[j].Code?
    ensures Stands(s, j, Plain) && !Quote(s[j]) && !Opener(s, j)
    decreases |s| - i
  {
    hide Stands, KindsOf;
    Advance(s, i, m);
    var t := Read(m, s, i);
    if j >= i + t.width {
      CodeCharacter(s, i + t.width, t.mode, j);
    }
  }

  // ----- the loops of the scripts

  /** What a token becomes in a stripped text: itself, or blanks. */
  function Shown(s: string, i: nat, width: nat, kept: bool): string
    requires i + width <= |s| && 1 <= width <= 2
  {
    if kept then s[i..i + width]
    else if width == 1 then [Blank(s[i])]
    else [Blank(s[i]), Blank(s[i + 1])]
  }

  lemma EmitCode(s: string, i: nat, m: Mode)
    requires Stands(s, i, m) && i < |s|
    ensures var t := Read(m, s, i);
      && Stands(s, i + t.width, t.mode)
      && StripCode(s)[..i + t.width] == StripCode(s)[..i] + Shown(s, i, t.width, t.kind.Code?)
  {
    Advance(s, i, m);
    var t := Read(m, s, i);
    var r := StripCode(s);
    assert r[..i + t.width] == r[..i] + r[i..i + t.width];
    assert r[i] == if t.kind.Code? then s[i] else Blank(s[i]);
    assert t.width == 2 ==> r[i + 1] == if t.kind.Code? then s[i + 1] else Blank(s[i + 1]);
    assert r[i..i + t.width] == Shown(s, i, t.width, t.kind.Code?);
  }

  lemma EmitComments(s: string, i: nat, m: Mode)
    requires Stands(s, i, m) && i < |s|
    ensures var t := Read(m, s, i);
      && Stands(s, i + t.width, t.mode)
      && StripComments(s)[..i + t.width] == StripComments(s)[..i] + Shown(s, i, t.width, !t.kind.Comment?)
  {
    Advance(s, i, m);
    var t := Read(m, s, i);
    var r := StripComments(s);
    assert r[..i + t.width] == r[..i] + r[i..i + t.width];
    assert r[i] == if t.kind.Comment? then Blank(s[i]) else s[i];
    assert t.width == 2 ==> r[i + 1] == if t.kind.Comment? then Blank(s[i + 1]) else s[i + 1];
    assert r[i..i + t.width] == Shown(s, i, t.width, !t.kind.Comment?);
  }

  /** Flag-driven, with an inner loop for literals, as the blanking lexer runs. */
  method StripCodeLoop(text: string) returns (out: string)
    ensures out == StripCode(text)
  {
    hide Stands, StripCode;
    out := "";
    var i, n := 0, |text|;
    var inBlock, inLine := false, false;
    StartsPlain(text);
    while i < n
      invariant 0 <= i <= n && !(inBlock && inLine)
      invariant Stands(text, i, if inLine then Line else if inBlock then Block else Plain)
      invariant out == StripCode(text)[..i]
      decreases n - i
    {
      EmitCode(text, i, if inLine then Line else if inBlock then Block else Plain);
      var ch := text[i];
      if inLine {
        out := out + [if ch == '\n' then '\n' else ' '];
        if ch == '\n' {
          inLine := false;
        }
        i := i + 1;
        continue;
      }
      if inBlock {
        if ch == '*' && i + 1 < n && text[i + 1] == '/' {
          out := out + "  ";
          i := i + 2;
          inBlock := false;
        } else {
          out := out + [if ch == '\n' then '\n' else ' '];
          i := i + 1;
        }
        continue;
      }
      if ch == '/' && i + 1 < n && text[i + 1] == '*' {
        inBlock := true;
        out := out + "  ";
        i := i + 2;
        continue;
      }
      if ch == '/' && i + 1 < n && text[i + 1] == '/' {
        inLine := true;
        out := out + "  ";
        i := i + 2;
        continue;
      }
      if ch == '"' || ch == '\'' {
        out, i := BlankLiteral(text, i, out);
        continue;
      }
      out := out + [ch];
      i := i + 1;
    }
    assert StripCode(text)[..n] == StripCode(text);
  }

  /** The inner loop: from an opening quote to its end or the end of the text. */
  method BlankLiteral(text: string, start: nat, sofar: string) returns (out: string, i: nat)
    requires start < |text| && Quote(text[start]) && Stands(text, start, Plain) && sofar == StripCode(text)[..start]
    ensures start < i <= |text| && Stands(text, i, Plain) && out == StripCode(text)[..i]
  {
    hide Stands, StripCode;
    var n := |text|;
    var quote := text[start];
    EmitCode(text, start, Plain);
    out := sofar + " ";
    i := start + 1;
    while i < n
      invariant start < i <= n && Stands(text, i, Quoted(quote)) && out == StripCode(text)[..i]
      decreases n - i
    {
      EmitCode(text, i, Quoted(quote));
      var c2 := text[i];
      if c2 == '\\' && i + 1 < n {
        out := out + if text[i + 1] == '\n' then " \n" else "  ";
        i := i + 2;
        continue;
      }
      if c2 == quote {
        out := out + " ";
        i := i + 1;
        return;
      }
      out := out + [if c2 == '\n' then '\n' else ' '];
      i := i + 1;
    }
    EndsAnyhow(text);
  }

  lemma StartsPlain(s: string)
    ensures Stands(s, 0, Plain)
  {
  }

  lemma EndsAnyhow(s: string)
    ensures Stands(s, |s|, Plain)
  {
  }

  /** The comment-only lexer, one loop with a literal flag. */
  method StripCommentsLoop(text: string) returns (out: string)
    ensures out == StripComments(text)
  {
    hide Stands, StripComments;
    out := "";
    var i, n := 0, |text|;
    var mode := Plain;
    StartsPlain(text);
    while i < n
      invariant 0 <= i <= n && Stands(text, i, mode) && out == StripComments(text)[..i]
      decreases n - i
    {
      EmitComments(text, i, mode);
      var ch := text[i];
      if mode.Line? {
        out := out + [if ch == '\n' then '\n' else ' '];
        if ch == '\n' {
          mode := Plain;
        }
        i := i + 1;
        continue;
      }
      if mode.Block? {
        if ch == '*' && i + 1 < n && text[i + 1] == '/' {
          out := out + "  ";
          i := i + 2;
          mode := Plain;
        } else {
          out := out + [if ch == '\n' then '\n' else ' '];
          i := i + 1;
        }
        continue;
      }
      if mode.Quoted? {
        if ch == '\\' && i + 1 < n {
          out := out + [ch, text[i + 1]];
          i := i + 2;
          continue;
        }
        out := out + [ch];
        if ch == mode.quote {
          mode := Plain;
        }
        i := i + 1;
        continue;
      }
      if ch == '/' && i + 1 < n && text[i + 1] == '*' {
        mode := Block;
        out := out + "  ";
        i := i + 2;
        continue;
      }
      if ch == '/' && i + 1 < n && text[i + 1] == '/' {
        mode := Line;
        out := out + "  ";
        i := i + 2;
        continue;
      }
      if ch == '"' || ch == '\'' {
        mode := Quoted(ch);
        out := out + [ch];
        i := i + 1;
        continue;
      }
      out := out + [ch];
      i := i + 1;
    }
    assert StripComments(text)[..n] == StripComments(text);
  }

  // ----- what the two strippers promise

  /** Same length, newlines exactly where they were, and every other visible character from its own offset. */
  lemma OffsetsKept(s: string, i: nat)
    requires i < |s|
    ensures |StripCode(s)| == |s| == |StripComments(s)|
    ensures (StripCode(s)[i] == '\n' <==> s[i] == '\n') && (StripComments(s)[i] == '\n' <==> s[i] == '\n')
    ensures StripCode(s)[i] == s[i] || StripCode(s)[i] == ' '
    ensures StripComments(s)[i] == s[i] || StripComments(s)[i] == ' '
  {
  }

  /** No quote and no comment opener is left in the blanked text. */
  lemma NothingOpensLeft(s: string, i: nat)
    requires i < |s|
    ensures !Quote(StripCode(s)[i]) && !Opener(StripCode(s), i)
  {
    if KindsOf(s)[i].Code? {
      CodeCharacter(s, 0, Plain, i);
    }
  }

  /** In a text without quotes and openers every character is code. */
  lemma {:induction false} AllCode(s: string, i: nat)
    requires i <= |s|
    requires forall j :: 0 <= j < |s| ==> !Quote(s[j]) && !Opener(s, j)
    ensures forall j :: 0 <= j < |s| - i ==> Kinds(Plain, s, i)[j].Code?
    decreases |s| - i
  {
    if i < |s| {
      AllCode(s, i + 1);
      var t := Read(Plain, s, i);
      assert Kinds(Plain, s, i) == seq(t.width, _ => t.kind) + Kinds(t.mode, s, i + t.width);
    }
  }

  lemma StripCodeIdempotent(s: string)
    ensures StripCode(StripCode(s)) == StripCode(s)
  {
    var r := StripCode(s);
    forall j | 0 <= j < |r| ensures !Quote(r[j]) && !Opener(r, j) {
      NothingOpensLeft(s, j);
    }
    AllCode(r, 0);
  }

  /** Where the lexer stands in the comment-stripped text when it stands in mode `m` in the original. */
  function Mirrored(m: Mode): Mode {
    if m.Line? || m.Block? then Plain else m
  }

  function Uncommented(k: Kind): Kind {
    if k.Comment? then Code else k
  }

  /** A token that is no comment is read the same in the stripped text. */
  lemma SameToken(s: string, i: nat, m: Mode)
    requires Stands(s, i, m) && i < |s| && !Read(m, s, i).kind.Comment?
    ensures Read(m, StripComments(s), i) == Read(m, s, i)
  {
    Advance(s, i, m);
  }

  /** The characters of a comment are read as plain code once they are blanked. */
  lemma BlankedToken(s: string, i: nat)
    requires i < |s| && KindsOf(s)[i].Comment?
    ensures Read(Plain, StripComments(s), i) == Token(1, Code, Plain)
  {
  }

  /** Token by token, the stripped text reads like the original with its comments turned into code. */
  lemma {:induction false} StrippedKinds(s: string, i: nat, m: Mode)
    requires Stands(s, i, m) && Stands(StripComments(s), i, Mirrored(m))
    ensures forall j :: i <= j < |s| ==> KindsOf(StripComments(s))[j] == Uncommented(KindsOf(s)[j])
    decreases |s| - i
  {
    hide Stands, StripComments, KindsOf;
    if i < |s| {
      var r := StripComments(s);
      var t := Read(m, s, i);
      Advance(s, i, m);
      if t.kind.Comment? {
        BlankedToken(s, i);
        Advance(r, i, Plain);
        if t.width == 2 {
          BlankedToken(s, i + 1);
          Advance(r, i + 1, Plain);
        }
      } else {
        SameToken(s, i, m);
        Advance(r, i, m);
      }
      StrippedKinds(s, i + t.width, t.mode);
    }
  }

  lemma StrippedText(s: string, j: nat)
    requires j < |s|
    ensures KindsOf(StripComments(s))[j] == Uncommented(KindsOf(s)[j])
  {
    StartsPlain(s);
    StartsPlain(StripComments(s));
    StrippedKinds(s, 0, Plain);
  }

  /** Blanking after stripping comments is blanking; stripping comments twice is stripping once. */
  lemma StripsCompose(s: string)
    ensures StripCode(StripComments(s)) == StripCode(s)
    ensures StripComments(StripComments(s)) == StripComments(s)
  {
    forall j | 0 <= j < |s|
      ensures StripCode(StripComments(s))[j] == StripCode(s)[j]
      ensures StripComments(StripComments(s))[j] == StripComments(s)[j]
    {
      StrippedText(s, j);
    }
  }
}
