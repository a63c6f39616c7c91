// packages/analyzer/src/parser.js: maskComments, over the code points that [...source] yields.

module CommentMask {
  import opened Text

  // What the lexer is in the middle of.
  datatype Mode = Code | Literal(quote: char) | LineComment | BlockComment

  // One move of the lexer: the one or two characters it writes for those it reads, and its next mode.
  datatype Move = Move(out: string, mode: Mode)

  // The text s starts with the two characters c and d.
  predicate Starts(s: string, c: char, d: char) {
    |s| >= 2 && s[0] == c && s[1] == d
  }

  function Blank(c: char): string {
    if c == '\n' then "\n" else " "
  }

  function Next(s: string, mode: Mode): (m: Move)
    requires s != []
    ensures 1 <= |m.out| <= 2 && |m.out| <= |s|
  {
    match mode
    case LineComment => Move(Blank(s[0]), if s[0] == '\n' then Code else LineComment)
    case BlockComment => if Starts(s, '*', '/') then Move("  ", Code) else Move(Blank(s[0]), BlockComment)
    case Literal(quote) =>
      if s[0] == '\\' then Move(if |s| == 1 then s else s[..2], mode)
      else Move([s[0]], if s[0] == quote then Code else mode)
    case Code =>
      if IsQuote(s[0]) then Move([s[0]], Literal(s[0]))
      else if Starts(s, '/', '/') then Move("  ", LineComment)
      else if Starts(s, '/', '*') then Move("  ", BlockComment)
      else Move([s[0]], Code)
  }

  // The masked form of a text that is reached in the given mode.
  function Mask(s: string, mode: Mode): (t: string)
    ensures |t| == |s|
  {
    if s == [] then []
    else
      var m := Next(s, mode);
      m.out + Mask(s[|m.out|..], m.mode)
  }

  // What remains of the masked text t after one move.
  lemma Advance(source: string, t: string, index: nat, mode: Mode)
    requires index < |source| == |t|
    requires t[index..] == Mask(source[index..], mode)
    ensures var m := Next(source[index..], mode);
      && t[index] == m.out[0]
      && (|m.out| == 2 ==> t[index + 1] == m.out[1])
      && t[index + |m.out|..] == Mask(source[index + |m.out|..], m.mode)
  {
    hide Next;
    var rest := source[index..];
    var m := Next(rest, mode);
    assert rest[|m.out|..] == source[index + |m.out|..];
    assert t[index..][|m.out|..] == t[index + |m.out|..];
  }

  method MaskComments(source: string) returns (chars: array<char>)
    ensures chars[..] == Mask(source, Code)
  {
    hide Mask;
    var n := |source|;
    chars := new char[n](i requires 0 <= i < n => source[i]);
    var mode := Code;
    var index := 0;
    ghost var masked := Mask(source, Code);
    assert source[0..] == source && masked[0..] == masked;
    while index < n
      invariant 0 <= index <= n + 1 && chars.Length == n
      invariant forall k :: index <= k < n ==> chars[k] == source[k]
      invariant forall k :: 0 <= k < index && k < n ==> chars[k] == masked[k]
      invariant index <= n ==> masked[index..] == Mask(source[index..], mode)
    {
      var current := chars[index];
      ghost var m := Next(source[index..], mode);
      Advance(source, masked, index, mode);
      match mode {
        case LineComment =>
          if current == '\n' {
            mode := Code;
          } else {
            chars[index] := ' ';
          }
          index := index + 1;
        case BlockComment =>
          if current == '*' && index + 1 < n && chars[index + 1] == '/' {
            chars[index] := ' ';
            chars[index + 1] := ' ';
            index := index + 2;
            mode := Code;
          } else {
            if current != '\n' {
              chars[index] := ' ';
            }
            index := index + 1;
          }
        case Literal(quote) =>
          if current == '\\' {
            index := index + 2;
          } else {
            if current == quote {
              mode := Code;
            }
            index := index + 1;
          }
        case Code =>
          if IsQuote(current) {
            mode := Literal(current);
            index := index + 1;
          } else if current == '/' && index + 1 < n && chars[index + 1] == '/' {
            chars[index] := ' ';
            chars[index + 1] := ' ';
            index := index + 2;
            mode := LineComment;
          } else if current == '/' && index + 1 < n && chars[index + 1] == '*' {
            chars[index] := ' ';
            chars[index + 1] := ' ';
            index := index + 2;
            mode := BlockComment;
          } else {
            index := index + 1;
          }
      }
      assert mode == m.mode;
    }
  }

  // ---- What is a comment ----

  // Whether the move from s reads characters of a comment: its delimiters and its text, but not the
  // newline that ends a line comment.
  predicate ReadsComment(s: string, mode: Mode)
    requires s != []
  {
    match mode
    case LineComment => s[0] != '\n'
    case BlockComment => true
    case Literal(_) => false
    case Code => Next(s, mode).mode.LineComment? || Next(s, mode).mode.BlockComment?
  }

  // For each position of s, whether it belongs to a comment.
  function Commented(s: string, mode: Mode): (c: seq<bool>)
    ensures |c| == |s|
  {
    if s == [] then []
    else
      var m := Next(s, mode);
      seq(|m.out|, i => ReadsComment(s, mode)) + Commented(s[|m.out|..], m.mode)
  }

  lemma MoveExactly(s: string, mode: Mode)
    requires s != []
    ensures var m := Next(s, mode);
      forall i :: 0 <= i < |m.out| ==> m.out[i] == if ReadsComment(s, mode) && s[i] != '\n' then ' ' else s[i]
  {}

  // The masked text is the source with the characters of comments blanked, except for newlines.
  lemma {:induction false} MaskedExactly(s: string, mode: Mode)
    ensures forall i :: 0 <= i < |s| ==>
      Mask(s, mode)[i] == if Commented(s, mode)[i] && s[i] != '\n' then ' ' else s[i]
  {
    hide Next, ReadsComment;
    if s != [] {
      var m := Next(s, mode);
      var k := |m.out|;
      MoveExactly(s, mode);
      MaskedExactly(s[k..], m.mode);
      forall i | 0 <= i < |s|
        ensures Mask(s, mode)[i] == if Commented(s, mode)[i] && s[i] != '\n' then ' ' else s[i]
      {
        if i >= k {
          assert s[k..][i - k] == s[i];
        }
      }
    }
  }

  lemma NewlinesKept(s: string)
    ensures |Mask(s, Code)| == |s|
    ensures forall i :: 0 <= i < |s| ==> (Mask(s, Code)[i] == '\n' <==> s[i] == '\n')
  {
    MaskedExactly(s, Code);
  }

  // ---- What findMatching and the segment scan see ----

  // The move of a reader that knows string literals but no comments.
  function QuoteMode(t: string, mode: Mode): Mode
    requires t != []
  {
    if mode.Literal? then
      if t[0] != '\\' && t[0] == mode.quote then Code else mode
    else if IsQuote(t[0]) then Literal(t[0]) else Code
  }

  function QuoteWidth(t: string, mode: Mode): (w: nat)
    requires t != []
    ensures 1 <= w <= |t|
  {
    if mode.Literal? && t[0] == '\\' && |t| > 1 then 2 else 1
  }

  // Such a reader meets no comment opener outside string literals.
  predicate NoOpener(t: string, mode: Mode) {
    t == [] ||
    (&& (mode.Literal? || (!Starts(t, '/', '/') && !Starts(t, '/', '*')))
     && NoOpener(t[QuoteWidth(t, mode)..], QuoteMode(t, mode)))
  }

  function Outside(mode: Mode): Mode {
    if mode.Literal? then mode else Code
  }

  lemma NoOpenerAfterChar(c: char, u: string, mode: Mode)
    requires mode.Literal? ==> c != '\\'
    requires mode.Literal? || c != '/' || u == [] || (u[0] != '/' && u[0] != '*')
    requires NoOpener(u, QuoteMode([c] + u, mode))
    ensures NoOpener([c] + u, mode)
  {
    assert ([c] + u)[1..] == u;
  }

  lemma NoOpenerAfterEscape(e: string, u: string, mode: Mode)
    requires mode.Literal? && e != [] && e[0] == '\\' && (|e| == 2 || (|e| == 1 && u == []))
    requires NoOpener(u, mode)
    ensures NoOpener(e + u, mode)
  {
    assert (e + u)[|e|..] == u;
  }

  // A '/' outside literals and comments is not followed by what would make it an opener.
  lemma SlashStaysAlone(s: string)
    requires |s| > 1 && !Starts(s, '/', '/') && !Starts(s, '/', '*') && s[0] == '/'
    ensures Mask(s[1..], Code)[0] != '/' && Mask(s[1..], Code)[0] != '*'
  {
    hide Mask;
    MaskedExactly(s[1..], Code);
  }

  lemma {:induction false} MaskedHasNoOpener(s: string, mode: Mode)
    ensures NoOpener(Mask(s, mode), Outside(mode))
  {
    hide NoOpener;
    if s == [] {
      assert NoOpener([], Outside(mode)) by { NoOpenerInNothing(Outside(mode)); }
    } else {
      var m := Next(s, mode);
      var u := Mask(s[|m.out|..], m.mode);
      MaskedHasNoOpener(s[|m.out|..], m.mode);
      if mode.Literal? && s[0] == '\\' {
        NoOpenerAfterEscape(m.out, u, mode);
      } else if |m.out| == 2 {
        NoOpenerAfterChar(' ', u, Code);
        NoOpenerAfterChar(' ', " " + u, Code);
        assert m.out + u == " " + (" " + u);
      } else {
        if mode == Code && s[0] == '/' && |s| > 1 {
          SlashStaysAlone(s);
        }
        NoOpenerAfterChar(m.out[0], u, Outside(mode));
        assert m.out == [m.out[0]];
      }
    }
  }

  lemma NoOpenerInNothing(mode: Mode)
    ensures NoOpener([], mode)
  {}

  lemma {:induction false} WithoutOpenerUnchanged(t: string, mode: Mode)
    requires mode == Code || mode.Literal?
    requires NoOpener(t, mode)
    ensures Mask(t, mode) == t
  {
    if t != [] {
      var m := Next(t, mode);
      WithoutOpenerUnchanged(t[|m.out|..], m.mode);
      assert m.out == t[..|m.out|];
    }
  }

  lemma MaskingIsIdempotent(s: string)
    ensures Mask(Mask(s, Code), Code) == Mask(s, Code)
  {
    MaskedHasNoOpener(s, Code);
    WithoutOpenerUnchanged(Mask(s, Code), Code);
  }

  // ---- Agreement about string literals ----

  // The characters of string literals with their quotes, as the masking lexer reads the source ...
  function LiteralMarks(s: string, mode: Mode): (r: seq<bool>)
    ensures |r| == |s|
  {
    if s == [] then []
    else
      var m := Next(s, mode);
      Marks(mode.Literal? || m.mode.Literal?, |m.out|) + LiteralMarks(s[|m.out|..], m.mode)
  }

  // ... and as a reader that knows no comments finds them.
  function QuoteMarks(t: string, mode: Mode): (r: seq<bool>)
    ensures |r| == |t|
  {
    if t == [] then []
    else
      var next := QuoteMode(t, mode);
      Marks(mode.Literal? || next.Literal?, QuoteWidth(t, mode)) + QuoteMarks(t[QuoteWidth(t, mode)..], next)
  }

  function Marks(b: bool, n: nat): seq<bool> {
    seq(n, i => b)
  }

  lemma MarksAfterChar(c: char, u: string, mode: Mode)
    requires mode.Literal? ==> c != '\\'
    ensures var next := QuoteMode([c] + u, mode);
      QuoteMarks([c] + u, mode) == [mode.Literal? || next.Literal?] + QuoteMarks(u, next)
  {
    assert ([c] + u)[1..] == u;
  }

  lemma MarksAfterEscape(e: string, u: string, mode: Mode)
    requires mode.Literal? && e != [] && e[0] == '\\' && (|e| == 2 || (|e| == 1 && u == []))
    ensures QuoteMarks(e + u, mode) == Marks(true, |e|) + QuoteMarks(u, mode)
  {
    assert (e + u)[|e|..] == u;
  }

  lemma MarksAfterBlanks(u: string)
    ensures QuoteMarks("  " + u, Code) == Marks(false, 2) + QuoteMarks(u, Code)
  {
    hide QuoteMarks;
    MarksAfterChar(' ', u, Code);
    MarksAfterChar(' ', " " + u, Code);
    assert "  " + u == " " + (" " + u);
  }

  lemma {:induction false} LiteralsAgree(s: string, mode: Mode)
    ensures QuoteMarks(Mask(s, mode), Outside(mode)) == LiteralMarks(s, mode)
  {
    hide QuoteMarks;
    if s == [] {
      assert |QuoteMarks([], Outside(mode))| == 0;
    } else {
      var m := Next(s, mode);
      var u := Mask(s[|m.out|..], m.mode);
      LiteralsAgree(s[|m.out|..], m.mode);
      if mode.Literal? && s[0] == '\\' {
        MarksAfterEscape(m.out, u, mode);
      } else if |m.out| == 2 {
        MarksAfterBlanks(u);
      } else {
        MarksAfterChar(m.out[0], u, Outside(mode));
        assert m.out == [m.out[0]];
        assert Marks(mode.Literal? || m.mode.Literal?, 1) == [mode.Literal? || m.mode.Literal?];
      }
    }
  }

  // ---- Offsets ----

  // JavaScript strings count UTF-16 code units: two for a code point above U+FFFF.
  function UnitsOf(c: char): nat {
    if c as int >= 0x10000 then 2 else 1
  }

  function Units(s: string): nat {
    if s == [] then 0 else Units(s[..|s| - 1]) + UnitsOf(s[|s| - 1])
  }

  // The parser uses offsets into the masked text as offsets into the source.
  ghost predicate SameOffsets(s: string, t: string)
    requires |s| == |t|
  {
    forall i :: 0 <= i <= |s| ==> Units(t[..i]) == Units(s[..i])
  }

  lemma UnitsOfPrefix(s: string, i: nat)
    requires i < |s|
    ensures Units(s[..i + 1]) == Units(s[..i]) + UnitsOf(s[i])
  {
    assert s[..i + 1][..i] == s[..i];
  }

  lemma {:induction false} SameUnits(s: string, t: string, i: nat)
    requires i <= |s| == |t|
    requires forall k :: 0 <= k < |s| ==> UnitsOf(t[k]) == UnitsOf(s[k])
    ensures Units(t[..i]) == Units(s[..i])
  {
    if i > 0 {
      SameUnits(s, t, i - 1);
      UnitsOfPrefix(s, i - 1);
      UnitsOfPrefix(t, i - 1);
    }
  }

  // Masking moves no offset exactly when no comment holds a code point above U+FFFF.
  lemma OffsetsKeptExactly(s: string)
    ensures SameOffsets(s, Mask(s, Code))
        <==> forall i :: 0 <= i < |s| && Commented(s, Code)[i] ==> UnitsOf(s[i]) == 1
  {
    hide Mask, Commented, Units;
    var t := Mask(s, Code);
    MaskedExactly(s, Code);
    if SameOffsets(s, t) {
      forall i | 0 <= i < |s| && Commented(s, Code)[i]
        ensures UnitsOf(s[i]) == 1
      {
        UnitsOfPrefix(s, i);
        UnitsOfPrefix(t, i);
        assert UnitsOf(t[i]) == UnitsOf(s[i]);
      }
    } else {
      if forall i :: 0 <= i < |s| && Commented(s, Code)[i] ==> UnitsOf(s[i]) == 1 {
        forall i | 0 <= i <= |s|
          ensures Units(t[..i]) == Units(s[..i])
        {
          SameUnits(s, t, i);
        }
        assert false;
      }
    }
  }

  // One emoji in a comment already moves the offsets behind it.
  lemma EmojiInCommentMovesOffsets()
    ensures !SameOffsets("/*\U{1F600}*/", Mask("/*\U{1F600}*/", Code))
  {
    hide SameOffsets;
    var s := "/*\U{1F600}*/";
    assert s[2..] == "\U{1F600}*/";
    assert Commented(s[2..], BlockComment)[0];
    assert Commented(s, Code)[2] && UnitsOf(s[2]) == 2;
    OffsetsKeptExactly(s);
  }
}
