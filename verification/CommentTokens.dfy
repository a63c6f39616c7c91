// What a comment and a string literal are, as a grammar of tokens, and that the masking lexer of
// packages/analyzer/src/parser.js reads a source in this way.

module CommentTokens {
  import opened Text
  import opened CommentMask

  datatype Token = Plain(text: string) | Quoted(text: string) | Line(text: string) | Block(text: string)

  // What follows the opening quote of a literal: characters and escaped characters up to the closing quote. An
  // unclosed literal reaches to the end of the source.
  predicate LiteralBody(t: string, quote: char, closed: bool) {
    if t == "" then !closed
    else if t[0] == '\\' then (if |t| == 1 then !closed else LiteralBody(t[2..], quote, closed))
    else if t[0] == quote then closed && |t| == 1
    else LiteralBody(t[1..], quote, closed)
  }

  // The end of a block comment stands at i.
  predicate EndsAt(t: string, i: nat) {
    i + 2 <= |t| && t[i] == '*' && t[i + 1] == '/'
  }

  // What follows the opening of a block comment: everything up to its first end, or to the end of the source.
  ghost predicate BlockBody(t: string, closed: bool) {
    && (closed ==> |t| >= 2 && EndsAt(t, |t| - 2))
    && forall i: nat :: i + 2 < |t| + (if closed then 0 else 1) ==> !EndsAt(t, i)
  }

  // Token t may stand in front of rest.
  ghost predicate IsToken(t: Token, rest: string) {
    match t
    case Plain(text) =>
      && |text| == 1 && text[0] !in {'"', '\''}
      && (text[0] == '/' && rest != "" ==> rest[0] != '/' && rest[0] != '*')
    case Quoted(text) =>
      && text != "" && text[0] in {'"', '\''}
      && (LiteralBody(text[1..], text[0], true) || (LiteralBody(text[1..], text[0], false) && rest == ""))
    case Line(text) =>
      |text| >= 2 && text[..2] == "//" && '\n' !in text && (rest != "" ==> rest[0] == '\n')
    case Block(text) =>
      && |text| >= 2 && text[..2] == "/*"
      && (BlockBody(text[2..], true) || (BlockBody(text[2..], false) && rest == ""))
  }

  function SourceOf(tokens: seq<Token>): string {
    if tokens == [] then "" else tokens[0].text + SourceOf(tokens[1..])
  }

  // The tokens are those of their text.
  ghost predicate Lexed(tokens: seq<Token>) {
    tokens != [] ==> IsToken(tokens[0], SourceOf(tokens[1..])) && Lexed(tokens[1..])
  }

  predicate IsComment(t: Token) {
    t.Line? || t.Block?
  }

  // Spaces for all but newlines.
  function Blanks(text: string): (r: string)
    ensures |r| == |text|
  {
    seq(|text|, i requires 0 <= i < |text| => if text[i] == '\n' then '\n' else ' ')
  }

  function Shown(t: Token): string {
    if IsComment(t) then Blanks(t.text) else t.text
  }

  function Blanked(tokens: seq<Token>): string {
    if tokens == [] then "" else Shown(tokens[0]) + Blanked(tokens[1..])
  }

  // ---- Reading one token ----

  // From s on, the lexer in the first mode shows, and marks as literal or comment, what it does from rest on in the
  // second one, after the n characters shown.
  ghost predicate Reads(s: string, mode: Mode, shown: string, literal: bool, comment: bool, rest: string, then_: Mode) {
    && Mask(s, mode) == shown + Mask(rest, then_)
    && LiteralMarks(s, mode) == Marks(literal, |shown|) + LiteralMarks(rest, then_)
    && Commented(s, mode) == Marks(comment, |shown|) + Commented(rest, then_)
  }

  lemma ReadsOn(s: string, mode: Mode, a: string, literal: bool, comment: bool, t: string, then_: Mode, b: string,
                rest: string, last: Mode)
    requires Reads(s, mode, a, literal, comment, t, then_) && Reads(t, then_, b, literal, comment, rest, last)
    ensures Reads(s, mode, a + b, literal, comment, rest, last)
  {
    hide Mask, LiteralMarks, Commented, Marks;
    Regrouped(a, b, Mask(rest, last));
    Regrouped(Marks(literal, |a|), Marks(literal, |b|), LiteralMarks(rest, last));
    Regrouped(Marks(comment, |a|), Marks(comment, |b|), Commented(rest, last));
    MarksOfJoin(literal, |a|, |b|);
    MarksOfJoin(comment, |a|, |b|);
  }

  lemma Regrouped<T>(a: seq<T>, b: seq<T>, c: seq<T>)
    ensures a + (b + c) == (a + b) + c
  {}

  lemma MarksOfJoin(mark: bool, m: nat, n: nat)
    ensures Marks(mark, m) + Marks(mark, n) == Marks(mark, m + n)
  {}

  lemma ReadsNothing(s: string, mode: Mode, literal: bool, comment: bool)
    ensures Reads(s, mode, "", literal, comment, s, mode)
  {
    assert "" + Mask(s, mode) == Mask(s, mode);
    assert Marks(literal, 0) == [] && Marks(comment, 0) == [];
  }

  lemma OneMove(s: string, mode: Mode)
    requires s != ""
    ensures var m := Next(s, mode);
      Reads(s, mode, m.out, mode.Literal? || m.mode.Literal?, ReadsComment(s, mode), s[|m.out|..], m.mode)
  {
    var m := Next(s, mode);
    assert seq(|m.out|, i => ReadsComment(s, mode)) == Marks(ReadsComment(s, mode), |m.out|);
  }

  lemma {:induction false} LineIsRead(body: string, rest: string)
    requires '\n' !in body && (rest != "" ==> rest[0] == '\n')
    ensures Reads(body + rest, LineComment, Blanks(body), false, true, rest, LineComment)
  {
    hide Reads;
    if body == "" {
      assert body + rest == rest;
      ReadsNothing(rest, LineComment, false, true);
      assert Blanks(body) == "";
    } else {
      var s := body + rest;
      OneMove(s, LineComment);
      assert s[1..] == body[1..] + rest;
      LineIsRead(body[1..], rest);
      ReadsOn(s, LineComment, " ", false, true, s[1..], LineComment, Blanks(body[1..]), rest, LineComment);
      assert " " + Blanks(body[1..]) == Blanks(body);
    }
  }

  // A newline, or the end, is read alike behind a line comment and behind code.
  lemma LineEnds(rest: string)
    requires rest != "" ==> rest[0] == '\n'
    ensures Mask(rest, LineComment) == Mask(rest, Code) && LiteralMarks(rest, LineComment) == LiteralMarks(rest, Code)
    ensures Commented(rest, LineComment) == Commented(rest, Code)
  {
    if rest != "" {
      OneMove(rest, LineComment);
      OneMove(rest, Code);
    }
  }

  lemma {:induction false} BlockIsRead(body: string, closed: bool, rest: string)
    requires BlockBody(body, closed) && (!closed ==> rest == "")
    ensures Reads(body + rest, BlockComment, Blanks(body), false, true, rest, if closed then Code else BlockComment)
  {
    hide Reads;
    var s := body + rest;
    if body == "" {
      assert s == rest;
      ReadsNothing(rest, BlockComment, false, true);
      assert Blanks(body) == "";
    } else {
      OneMove(s, BlockComment);
      if closed && |body| == 2 {
        assert s[2..] == rest && Blanks(body) == "  ";
        assert EndsAt(body, 0);
      } else {
        assert !EndsAt(body, 0);
        assert s[1..] == body[1..] + rest;
        forall i: nat
          ensures EndsAt(body[1..], i) <==> EndsAt(body, i + 1)
        {
        }
        BlockIsRead(body[1..], closed, rest);
        var last := if closed then Code else BlockComment;
        ReadsOn(s, BlockComment, Blank(s[0]), false, true, s[1..], BlockComment, Blanks(body[1..]), rest, last);
        assert Blank(s[0]) + Blanks(body[1..]) == Blanks(body);
      }
    }
  }

  lemma {:induction false} LiteralIsRead(body: string, quote: char, closed: bool, rest: string)
    requires LiteralBody(body, quote, closed) && (!closed ==> rest == "") && IsQuote(quote)
    ensures Reads(body + rest, Literal(quote), body, true, false, rest, if closed then Code else Literal(quote))
  {
    hide Reads;
    var s, mode := body + rest, Literal(quote);
    var last := if closed then Code else mode;
    if body == "" {
      assert s == rest;
      ReadsNothing(rest, mode, true, false);
    } else {
      OneMove(s, mode);
      var m := Next(s, mode);
      var tail := body[|m.out|..];
      assert s[|m.out|..] == tail + rest && m.out == body[..|m.out|];
      if m.mode == mode {
        LiteralIsRead(tail, quote, closed, rest);
        ReadsOn(s, mode, m.out, true, false, tail + rest, mode, tail, rest, last);
        assert m.out + tail == body;
      } else {
        assert tail == "" && tail + rest == rest && m.out == body && m.mode == last && !ReadsComment(s, mode);
      }
    }
  }

  lemma QuotedIsRead(text: string, rest: string)
    requires IsToken(Quoted(text), rest)
    ensures Reads(text + rest, Code, text, true, false, rest, Code)
  {
    hide Reads, LiteralBody;
    var s, body, mode := text + rest, text[1..], Literal(text[0]);
    assert s[1..] == body + rest && [text[0]] + body == text;
    OneMove(s, Code);
    var closed := LiteralBody(body, text[0], true);
    LiteralIsRead(body, text[0], closed, rest);
    ReadsOn(s, Code, [text[0]], true, false, body + rest, mode, body, rest, if closed then Code else mode);
    if !closed {
      AtEnd(s, text, true, false, mode);
    }
  }

  // At the end of the source it does not matter in what the lexer is.
  lemma AtEnd(s: string, shown: string, literal: bool, comment: bool, mode: Mode)
    requires Reads(s, Code, shown, literal, comment, "", mode)
    ensures Reads(s, Code, shown, literal, comment, "", Code)
  {}

  lemma LineTokenIsRead(text: string, rest: string)
    requires IsToken(Line(text), rest)
    ensures Reads(text + rest, Code, Blanks(text), false, true, rest, Code)
  {
    hide Reads;
    var s, body := text + rest, text[2..];
    assert text[0] == text[..2][0] && text[1] == text[..2][1];
    assert s[2..] == body + rest && "  " + Blanks(body) == Blanks(text);
    OneMove(s, Code);
    LineIsRead(body, rest);
    ReadsOn(s, Code, "  ", false, true, body + rest, LineComment, Blanks(body), rest, LineComment);
    assert Reads(s, Code, Blanks(text), false, true, rest, Code) by {
      LineEnds(rest);
      SameFrom(s, Blanks(text), rest, LineComment, Code);
    }
  }

  lemma SameFrom(s: string, shown: string, rest: string, mode: Mode, other: Mode)
    requires Reads(s, Code, shown, false, true, rest, mode)
    requires Mask(rest, mode) == Mask(rest, other) && LiteralMarks(rest, mode) == LiteralMarks(rest, other)
    requires Commented(rest, mode) == Commented(rest, other)
    ensures Reads(s, Code, shown, false, true, rest, other)
  {}

  lemma BlockTokenIsRead(text: string, rest: string)
    requires IsToken(Block(text), rest)
    ensures Reads(text + rest, Code, Blanks(text), false, true, rest, Code)
  {
    hide Reads, BlockBody;
    var s, body := text + rest, text[2..];
    assert text[0] == text[..2][0] && text[1] == text[..2][1];
    assert s[2..] == body + rest && "  " + Blanks(body) == Blanks(text);
    OneMove(s, Code);
    var closed := BlockBody(body, true);
    BlockIsRead(body, closed, rest);
    var last := if closed then Code else BlockComment;
    ReadsOn(s, Code, "  ", false, true, body + rest, BlockComment, Blanks(body), rest, last);
    if !closed {
      AtEnd(s, Blanks(text), false, true, BlockComment);
    }
  }

  lemma TokenIsRead(t: Token, rest: string)
    requires IsToken(t, rest)
    ensures Reads(t.text + rest, Code, Shown(t), t.Quoted?, IsComment(t), rest, Code)
  {
    hide Reads;
    match t
    case Plain(text) =>
      var s := text + rest;
      assert s[1..] == rest && text == [s[0]];
      OneMove(s, Code);
    case Quoted(text) => QuotedIsRead(text, rest);
    case Line(text) => LineTokenIsRead(text, rest);
    case Block(text) => BlockTokenIsRead(text, rest);
  }

  // ---- The whole source ----

  // The characters of the quoted tokens, and those of the comments.
  function LiteralsOf(tokens: seq<Token>): seq<bool> {
    if tokens == [] then [] else Marks(tokens[0].Quoted?, |tokens[0].text|) + LiteralsOf(tokens[1..])
  }

  function CommentsOf(tokens: seq<Token>): seq<bool> {
    if tokens == [] then [] else Marks(IsComment(tokens[0]), |tokens[0].text|) + CommentsOf(tokens[1..])
  }

  // However a source is cut into tokens, the masked text shows their characters, with blanks for comments, and the
  // characters marked as literals and as comments are theirs.
  lemma {:induction false} MaskReadsTokens(tokens: seq<Token>)
    requires Lexed(tokens)
    ensures var s := SourceOf(tokens);
      Mask(s, Code) == Blanked(tokens) && LiteralMarks(s, Code) == LiteralsOf(tokens)
      && Commented(s, Code) == CommentsOf(tokens)
  {
    hide IsToken, Mask, LiteralMarks, Commented, Marks;
    if tokens == [] {
      NoSource();
    } else {
      var t, rest := tokens[0], SourceOf(tokens[1..]);
      MaskReadsTokens(tokens[1..]);
      TokenIsRead(t, rest);
      assert |Shown(t)| == |t.text|;
    }
  }

  lemma NoSource()
    ensures Mask("", Code) == "" && LiteralMarks("", Code) == [] && Commented("", Code) == []
  {}

  // ---- Every source can be cut into tokens ----

  // Where the literal ends whose opening quote stands in front of s.
  lemma {:induction false} CutLiteral(s: string, quote: char) returns (n: nat, closed: bool)
    requires IsQuote(quote)
    ensures n <= |s| && LiteralBody(s[..n], quote, closed) && (!closed ==> n == |s|)
  {
    if s == "" {
      return 0, false;
    } else if s[0] == '\\' {
      if |s| == 1 {
        assert s[..1] == s;
        return 1, false;
      }
      n, closed := CutLiteral(s[2..], quote);
      assert s[..n + 2][2..] == s[2..][..n];
      n := n + 2;
    } else if s[0] == quote {
      assert s[..1] == [s[0]];
      return 1, true;
    } else {
      n, closed := CutLiteral(s[1..], quote);
      assert s[..n + 1][1..] == s[1..][..n];
      n := n + 1;
    }
  }

  lemma {:induction false} CutLine(s: string) returns (n: nat)
    ensures n <= |s| && '\n' !in s[..n] && (n < |s| ==> s[n] == '\n')
  {
    if s == "" || s[0] == '\n' {
      return 0;
    }
    n := CutLine(s[1..]);
    assert s[..n + 1] == [s[0]] + s[1..][..n];
    n := n + 1;
  }

  lemma {:induction false} CutBlock(s: string) returns (n: nat, closed: bool)
    ensures n <= |s| && BlockBody(s[..n], closed) && (!closed ==> n == |s|)
  {
    if |s| < 2 {
      assert s[..|s|] == s;
      return |s|, false;
    } else if EndsAt(s, 0) {
      assert EndsAt(s[..2], 0);
      return 2, true;
    }
    n, closed := CutBlock(s[1..]);
    assert s[..n + 1] == [s[0]] + s[1..][..n];
    BlockGrows(s[0], s[1..][..n], closed);
    n := n + 1;
  }

  lemma BlockGrows(c: char, body: string, closed: bool)
    requires BlockBody(body, closed) && !EndsAt([c] + body, 0)
    ensures BlockBody([c] + body, closed)
  {
    var grown := [c] + body;
    assert grown[1..] == body;
    forall i: nat | i > 0
      ensures EndsAt(grown, i) <==> EndsAt(body, i - 1)
    {
    }
  }

  lemma CutToken(s: string) returns (t: Token, rest: string)
    requires s != ""
    ensures IsToken(t, rest) && s == t.text + rest && |rest| < |s|
  {
    hide LiteralBody, BlockBody;
    var n, closed;
    if IsQuote(s[0]) {
      n, closed := CutLiteral(s[1..], s[0]);
      assert s[..n + 1][1..] == s[1..][..n];
      t, rest := Quoted(s[..n + 1]), s[n + 1..];
    } else if Starts(s, '/', '/') {
      n := CutLine(s[2..]);
      assert s[..n + 2] == "//" + s[2..][..n];
      t, rest := Line(s[..n + 2]), s[n + 2..];
    } else if Starts(s, '/', '*') {
      n, closed := CutBlock(s[2..]);
      assert s[..n + 2] == "/*" + s[2..][..n] && s[..n + 2][2..] == s[2..][..n];
      t, rest := Block(s[..n + 2]), s[n + 2..];
    } else {
      assert s[..1] == [s[0]];
      t, rest := Plain(s[..1]), s[1..];
    }
  }

  lemma {:induction false} EverySourceHasTokens(s: string) returns (tokens: seq<Token>)
    ensures Lexed(tokens) && SourceOf(tokens) == s
    decreases |s|
  {
    hide IsToken;
    if s == "" {
      return [];
    }
    var t, rest := CutToken(s);
    var more := EverySourceHasTokens(rest);
    tokens := [t] + more;
    assert tokens[1..] == more;
  }
}
