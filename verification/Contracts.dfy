// packages/analyzer/src/parser.js: the contract loop of parseSolidityFile over the masked text, and where
// its reading of string literals agrees with the source.

module Contracts {
  import opened Results
  import opened Text
  import opened ContractPattern
  import opened Segments
  import CommentMask

  datatype Contract = Contract(start: nat, open: nat, close: nat, segments: seq<Segment>)

  // NoBody is the error for a file that mentions a contract of which no header is found.
  datatype Parsed = Found(contracts: seq<Contract>) | UnclosedContract(at: nat) | UnclosedBlock | NoBody

  function SegmentsOf(masked: string, start: nat, end: nat): Outcome<seq<Segment>>
    requires start <= end <= |masked|
  {
    var all := Scan(masked, start, start, 0, 0, None, end);
    if all.Ok? then Ok(WithoutBlank(masked, all.value)) else Fail
  }

  lemma ClosesBehind(masked: string, open: nat)
    requires open < |masked| && masked[open] == '{'
    ensures var close := FirstClose(masked, open, open, '{', '}');
      close == -1 || (open < close < |masked| && Matched(masked, open, close))
  {
    hide FirstClose;
    var close := FirstClose(masked, open, open, '{', '}');
    assert close != -1 ==> Closes(masked, open, close, '{', '}');
  }

  // What one round of the loop finds for a header.
  datatype Round = One(contract: Contract) | Stop(error: Parsed)

  function RoundOf(masked: string, header: Header): (r: Round)
    requires header.start < header.open < |masked| && masked[header.open] == '{'
    ensures r.One? ==> header.start == r.contract.start < r.contract.close < |masked|
    ensures r.Stop? ==> !r.error.Found?
  {
    var close := FirstClose(masked, header.open, header.open, '{', '}');
    ClosesBehind(masked, header.open);
    if close < 0 then Stop(UnclosedContract(header.start))
    else
      var segments := SegmentsOf(masked, header.open + 1, close);
      if segments.Fail? then Stop(UnclosedBlock) else One(Contract(header.start, header.open, close, segments.value))
  }

  function AndThen(c: Contract, rest: Parsed): Parsed {
    if rest.Found? then Found([c] + rest.contracts) else rest
  }

  function ParseFrom(masked: string, i: nat): Parsed
    decreases |masked| - i
  {
    var header := Find(masked, i);
    if header.None? then Found([])
    else
      var round := RoundOf(masked, header.value);
      if round.Stop? then round.error else AndThen(round.contract, ParseFrom(masked, round.contract.close + 1))
  }

  function Parse(masked: string): Parsed {
    var r := ParseFrom(masked, 0);
    if r == Found([]) && MentionsContract(masked) then NoBody else r
  }

  function Join(first: seq<Contract>, rest: Parsed): Parsed {
    if rest.Found? then Found(first + rest.contracts) else rest
  }

  lemma JoinAndThen(first: seq<Contract>, c: Contract, rest: Parsed)
    ensures Join(first, AndThen(c, rest)) == Join(first + [c], rest)
  {
    if rest.Found? {
      assert first + ([c] + rest.contracts) == (first + [c]) + rest.contracts;
    }
  }

  method ParseContracts(masked: string) returns (r: Parsed)
    ensures r == Parse(masked)
  {
    hide RoundOf, Find, MentionsContract, ParseFrom, FirstClose, Scan, WithoutBlank, HeaderAt;
    var contracts: seq<Contract> := [];
    var lastIndex: nat := 0;
    ghost var all := ParseFrom(masked, 0);
    JoinNothing(all);
    while true
      invariant lastIndex <= |masked|
      invariant Join(contracts, ParseFrom(masked, lastIndex)) == all
      decreases |masked| - lastIndex
    {
      var found := Find(masked, lastIndex);
      ParseNext(masked, lastIndex);
      if found.None? {
        break;
      }
      var header := found.value;
      RoundIs(masked, header);
      var close := FindMatching(masked, header.open, '{', '}');
      if close < 0 {
        return UnclosedContract(header.start);
      }
      var segments := ScanTopLevelSegments(masked, header.open + 1, close);
      if segments.Fail? {
        return UnclosedBlock;
      }
      var contract := Contract(header.start, header.open, close, segments.value);
      JoinAndThen(contracts, contract, ParseFrom(masked, close + 1));
      contracts := contracts + [contract];
      lastIndex := close + 1;
    }
    assert contracts + [] == contracts;
    if contracts == [] && MentionsContract(masked) {
      return NoBody;
    }
    return Found(contracts);
  }

  lemma JoinNothing(rest: Parsed)
    ensures Join([], rest) == rest
  {
    if rest.Found? {
      assert [] + rest.contracts == rest.contracts;
    }
  }

  lemma ParseNext(masked: string, i: nat)
    ensures var header := Find(masked, i);
      ParseFrom(masked, i) ==
        if header.None? then Found([])
        else
          var round := RoundOf(masked, header.value);
          if round.Stop? then round.error else AndThen(round.contract, ParseFrom(masked, round.contract.close + 1))
  {
    hide Find, RoundOf;
  }

  lemma RoundIs(masked: string, header: Header)
    requires header.start < header.open < |masked| && masked[header.open] == '{'
    ensures var close := FirstClose(masked, header.open, header.open, '{', '}');
      && (close < 0 ==> RoundOf(masked, header) == Stop(UnclosedContract(header.start)))
      && (close >= 0 ==>
           && header.open < close < |masked|
           && var all := Scan(masked, header.open + 1, header.open + 1, 0, 0, None, close);
           RoundOf(masked, header) == if all.Fail? then Stop(UnclosedBlock)
             else One(Contract(header.start, header.open, close, WithoutBlank(masked, all.value))))
  {
    hide FirstClose, Scan, WithoutBlank;
    ClosesBehind(masked, header.open);
  }

  // ---- What is found ----

  // The segments of a contract are the tiles of its body, without blank ones.
  ghost predicate IsContract(masked: string, c: Contract) {
    && HeaderAt(masked, c.start) == Some(c.open)
    && Matched(masked, c.open, c.close) && c.open < c.close
    && exists tiles: seq<Segment> ::
         && Tiles(masked, tiles, c.open + 1, c.close)
         && (forall g <- tiles :: g.start < g.end <= |masked|)
         && c.segments == WithoutBlank(masked, tiles)
  }

  // From i on the contracts follow each other, and every header lies within one of them.
  ghost predicate Covers(masked: string, contracts: seq<Contract>, i: nat) {
    if contracts == [] then forall p :: i <= p < |masked| ==> HeaderAt(masked, p).None?
    else
      var c := contracts[0];
      && i <= c.start && (forall p :: i <= p < c.start && p < |masked| ==> HeaderAt(masked, p).None?)
      && IsContract(masked, c)
      && Covers(masked, contracts[1..], c.close + 1)
  }

  // "Unclosed block" is never thrown; "Unclosed contract" is thrown only for a header whose brace has no
  // match; otherwise the contracts lie one behind the other and no header between them is missed.
  lemma {:induction false} ParsedFromIs(masked: string, i: nat)
    ensures var r := ParseFrom(masked, i);
      && !r.UnclosedBlock? && !r.NoBody?
      && (r.Found? ==> Covers(masked, r.contracts, i))
      && (r.UnclosedContract? ==>
           i <= r.at < |masked| && HeaderAt(masked, r.at).Some?
           && FirstClose(masked, HeaderAt(masked, r.at).value, HeaderAt(masked, r.at).value, '{', '}') == -1)
    decreases |masked| - i
  {
    hide RoundOf, IsContract, HeaderAt, FirstClose;
    var header := Find(masked, i);
    if header.Some? {
      RoundIsContract(masked, header.value);
      var round := RoundOf(masked, header.value);
      if round.One? {
        ParsedFromIs(masked, round.contract.close + 1);
        var rest := ParseFrom(masked, round.contract.close + 1);
        if rest.Found? {
          assert ([round.contract] + rest.contracts)[1..] == rest.contracts;
        }
      }
    }
  }

  lemma RoundIsContract(masked: string, header: Header)
    requires header.start < header.open < |masked| && HeaderAt(masked, header.start) == Some(header.open)
    ensures var r := RoundOf(masked, header);
      && (r.One? ==> IsContract(masked, r.contract))
      && (r.Stop? ==> r.error == UnclosedContract(header.start)
                      && FirstClose(masked, header.open, header.open, '{', '}') == -1)
  {
    hide FirstClose, Tiles, Scan, HeaderAt, WithoutBlank, RoundOf;
    RoundIs(masked, header);
    ClosesBehind(masked, header.open);
    var close := FirstClose(masked, header.open, header.open, '{', '}');
    if close >= 0 {
      NoUnclosedBlock(masked, header.open, close);
    }
  }

  lemma ParsedIs(masked: string)
    ensures var r := Parse(masked);
      && !r.UnclosedBlock?
      && (r.Found? ==> Covers(masked, r.contracts, 0))
      && (r.NoBody? <==> MentionsContract(masked) && forall p :: 0 <= p < |masked| ==> HeaderAt(masked, p).None?)
  {
    hide Covers, HeaderAt, MentionsContract, Find;
    ParsedFromIs(masked, 0);
    var r := ParseFrom(masked, 0);
    NothingFound(masked);
  }

  lemma NothingFound(masked: string)
    ensures ParseFrom(masked, 0) == Found([]) <==> forall p :: 0 <= p < |masked| ==> HeaderAt(masked, p).None?
  {
    hide HeaderAt, RoundOf, FirstClose;
    var header := Find(masked, 0);
    if header.Some? {
      RoundIsContract(masked, header.value);
    }
  }

  // ---- String literals: the reader that starts at a contract's brace, and the source ----

  function AsLex(mode: CommentMask.Mode): Lex
    requires mode.Code? || mode.Literal?
  {
    if mode.Literal? then InString(mode.quote) else InCode
  }

  // Within a string literal, or at the quote that opens one, for a reader that starts at start.
  predicate InLiteral(t: string, start: nat, j: nat)
    requires start <= j < |t|
  {
    StateAt(t, start, j) != InCode || IsQuote(t[j])
  }

  // One move of the reader from character k on.
  lemma MarksNext(t: string, k: nat, mode: CommentMask.Mode, j: nat)
    requires k <= j < |t|
    ensures var rest := t[k..];
      var w, next := CommentMask.QuoteWidth(rest, mode), CommentMask.QuoteMode(rest, mode);
      CommentMask.QuoteMarks(rest, mode)[j - k]
        == if j < k + w then mode.Literal? || next.Literal? else CommentMask.QuoteMarks(t[k + w..], next)[j - k - w]
  {
    hide CommentMask.QuoteMode;
    var rest := t[k..];
    var w := CommentMask.QuoteWidth(rest, mode);
    assert rest[w..] == t[k + w..];
  }

  lemma {:induction false} LiteralsFrom(t: string, k: nat, mode: CommentMask.Mode, j: nat)
    requires k <= j < |t| && (mode.Code? || mode.Literal?) && StateAt(t, 0, k) == AsLex(mode)
    ensures CommentMask.QuoteMarks(t[k..], mode)[j - k] <==> InLiteral(t, 0, j)
    decreases |t| - k
  {
    hide StateAt, Depth, CommentMask.QuoteMarks;
    var rest := t[k..];
    var w, next := CommentMask.QuoteWidth(rest, mode), CommentMask.QuoteMode(rest, mode);
    assert rest[0] == t[k];
    MarksNext(t, k, mode, j);
    Step(t, 0, k);
    if w == 2 {
      Step(t, 0, k + 1);
    }
    if j >= k + w {
      LiteralsFrom(t, k + w, next, j);
    }
  }

  // A reader that starts at the beginning of the masked text finds the literals of the source.
  lemma LiteralsOfSource(source: string, j: nat)
    requires j < |source|
    ensures InLiteral(CommentMask.Mask(source, CommentMask.Code), 0, j)
        <==> CommentMask.LiteralMarks(source, CommentMask.Code)[j]
  {
    hide CommentMask.Mask, CommentMask.LiteralMarks, CommentMask.QuoteMarks;
    var t := CommentMask.Mask(source, CommentMask.Code);
    CommentMask.LiteralsAgree(source, CommentMask.Code);
    assert t[0..] == t;
    LiteralsFrom(t, 0, CommentMask.Code, j);
  }

  // findMatching starts at a brace instead, and takes it to stand in code. From there on it finds the
  // literals of the source exactly when that brace is not in a literal of the source.
  lemma ReadsAsSourceExactly(source: string, open: nat)
    requires open < |source| && CommentMask.Mask(source, CommentMask.Code)[open] == '{'
    ensures var masked := CommentMask.Mask(source, CommentMask.Code);
      && ((forall j :: open <= j < |source| ==>
            (InLiteral(masked, open, j) <==> CommentMask.LiteralMarks(source, CommentMask.Code)[j]))
          <==> StateAt(masked, 0, open) == InCode)
      && (StateAt(masked, 0, open) == InCode <==> !CommentMask.LiteralMarks(source, CommentMask.Code)[open])
  {
    hide CommentMask.Mask, CommentMask.LiteralMarks;
    var masked := CommentMask.Mask(source, CommentMask.Code);
    LiteralsOfSource(source, open);
    if StateAt(masked, 0, open) == InCode {
      forall j | open <= j < |source|
        ensures InLiteral(masked, open, j) <==> CommentMask.LiteralMarks(source, CommentMask.Code)[j]
      {
        InStep(masked, 0, open, j, '{', '}');
        LiteralsOfSource(source, j);
      }
    } else {
      assert !InLiteral(masked, open, open);
    }
  }

  // The same for each contract that is found: its body is read as the source reads it exactly when its
  // brace is not in a literal.
  lemma ContractReadsAsSourceExactly(source: string, c: Contract)
    requires IsContract(CommentMask.Mask(source, CommentMask.Code), c)
    ensures (forall j :: c.open <= j <= c.close ==>
              (InLiteral(CommentMask.Mask(source, CommentMask.Code), c.open, j)
               <==> CommentMask.LiteralMarks(source, CommentMask.Code)[j]))
        <==> !CommentMask.LiteralMarks(source, CommentMask.Code)[c.open]
  {
    hide CommentMask.Mask, CommentMask.LiteralMarks, Tiles, WithoutBlank;
    var masked := CommentMask.Mask(source, CommentMask.Code);
    ReadsAsSourceExactly(source, c.open);
    assert !InLiteral(masked, c.open, c.open);
  }

  // ---- The contracts of the source ----
  //
  // A reference that knows the literals of the source: braces in literals do not count, and a header that
  // begins or ends in a literal is text.

  function Marks(source: string): (marks: seq<bool>)
    ensures |marks| == |source|
  {
    CommentMask.LiteralMarks(source, CommentMask.Code)
  }

  function Masked(source: string): (masked: string)
    ensures |masked| == |source|
  {
    CommentMask.Mask(source, CommentMask.Code)
  }

  // How many more opening than closing braces stand outside literals between open and j.
  function Nesting(masked: string, marks: seq<bool>, open: nat, j: nat): int
    requires open <= j <= |masked| == |marks|
    decreases j
  {
    if j == open then 0
    else
      var k := j - 1;
      Nesting(masked, marks, open, k)
      + if marks[k] then 0 else if masked[k] == '{' then 1 else if masked[k] == '}' then -1 else 0
  }

  predicate ClosesIn(masked: string, marks: seq<bool>, open: nat, j: nat)
    requires open <= j < |masked| == |marks|
  {
    !marks[j] && masked[j] == '}' && Nesting(masked, marks, open, j + 1) == 0
  }

  // The first brace from j on that closes what the one at open has opened, or -1.
  function CloseIn(masked: string, marks: seq<bool>, open: nat, j: nat): (r: int)
    requires open <= j <= |masked| == |marks|
    ensures r == -1 || (j <= r < |masked| && ClosesIn(masked, marks, open, r))
    ensures forall k :: j <= k < |masked| && (r == -1 || k < r) ==> !ClosesIn(masked, marks, open, k)
    decreases |masked| - j
  {
    if j == |masked| then -1
    else if ClosesIn(masked, marks, open, j) then j
    else CloseIn(masked, marks, open, j + 1)
  }

  lemma {:induction false} NestingIsDepth(source: string, open: nat, j: nat)
    requires open <= j <= |source| && open < |source| && Masked(source)[open] == '{' && !Marks(source)[open]
    ensures Nesting(Masked(source), Marks(source), open, j) == Depth(Masked(source), open, j, '{', '}')
    decreases j
  {
    hide CommentMask.Mask, CommentMask.LiteralMarks;
    if j > open {
      NestingIsDepth(source, open, j - 1);
      ReadsAsSourceExactly(source, open);
      assert InLiteral(Masked(source), open, j - 1) <==> Marks(source)[j - 1];
    }
  }

  lemma ClosesAlike(source: string, open: nat)
    requires open < |source| && Masked(source)[open] == '{' && !Marks(source)[open]
    ensures CloseIn(Masked(source), Marks(source), open, open) == FirstClose(Masked(source), open, open, '{', '}')
  {
    hide CommentMask.Mask, CommentMask.LiteralMarks, FirstClose, CloseIn, Nesting, Depth;
    var masked, marks := Masked(source), Marks(source);
    ReadsAsSourceExactly(source, open);
    forall k | open <= k < |source|
      ensures ClosesIn(masked, marks, open, k) <==> Closes(masked, open, k, '{', '}')
    {
      assert InLiteral(masked, open, k) <==> marks[k];
      NestingIsDepth(source, open, k + 1);
    }
    var r := FirstClose(masked, open, open, '{', '}');
    var q := CloseIn(masked, marks, open, open);
  }

  // The contracts found before an error, if there is one.
  datatype Trace = Trace(contracts: seq<Contract>, error: Option<Parsed>)

  function Later(c: Contract, rest: Trace): Trace {
    Trace([c] + rest.contracts, rest.error)
  }

  // What the loop finds ...
  function TraceFrom(masked: string, i: nat): Trace
    decreases |masked| - i
  {
    var header := Find(masked, i);
    if header.None? then Trace([], None)
    else
      var round := RoundOf(masked, header.value);
      if round.Stop? then Trace([], Some(round.error))
      else Later(round.contract, TraceFrom(masked, round.contract.close + 1))
  }

  lemma TraceNext(masked: string, i: nat)
    ensures var header := Find(masked, i);
      TraceFrom(masked, i) ==
        if header.None? then Trace([], None)
        else
          var round := RoundOf(masked, header.value);
          if round.Stop? then Trace([], Some(round.error))
          else Later(round.contract, TraceFrom(masked, round.contract.close + 1))
  {
    hide Find, RoundOf, HeaderAt;
  }

  lemma {:induction false} ParsedIsTrace(masked: string, i: nat)
    ensures var t := TraceFrom(masked, i);
      && ParseFrom(masked, i) == (if t.error.Some? then t.error.value else Found(t.contracts))
      && (t.error.Some? ==> !t.error.value.Found?)
    decreases |masked| - i
  {
    hide Find, RoundOf, HeaderAt, TraceFrom, ParseFrom;
    TraceNext(masked, i);
    ParseNext(masked, i);
    var header := Find(masked, i);
    if header.Some? {
      var round := RoundOf(masked, header.value);
      if round.One? {
        ParsedIsTrace(masked, round.contract.close + 1);
      }
    }
  }

  // ... and what it should find.
  predicate IsText(source: string, header: Header)
    requires header.start < |source| && header.open < |source|
  {
    Marks(source)[header.start] || Marks(source)[header.open]
  }

  function SourceRound(source: string, header: Header): (r: Round)
    requires header.start < header.open < |source| && Masked(source)[header.open] == '{'
    ensures r.One? ==> header.start == r.contract.start < r.contract.close < |source| && r.contract.open == header.open
    ensures r.Stop? && r.error.UnclosedContract? ==> r.error.at == header.start
  {
    var close := CloseIn(Masked(source), Marks(source), header.open, header.open);
    if close <= header.open then Stop(UnclosedContract(header.start))
    else
      var segments := SegmentsOf(Masked(source), header.open + 1, close);
      if segments.Fail? then Stop(UnclosedBlock) else One(Contract(header.start, header.open, close, segments.value))
  }

  function SourceTrace(source: string, i: nat): Trace
    decreases |source| - i
  {
    var header := Find(Masked(source), i);
    if header.None? then Trace([], None)
    else if IsText(source, header.value) then SourceTrace(source, header.value.start + 1)
    else
      var round := SourceRound(source, header.value);
      if round.Stop? then Trace([], Some(round.error))
      else Later(round.contract, SourceTrace(source, round.contract.close + 1))
  }

  // No header that the loop finds from i on begins or ends in a literal.
  predicate OnlyCodeHeaders(source: string, i: nat)
    decreases |source| - i
  {
    var header := Find(Masked(source), i);
    header.None? ||
    (&& !IsText(source, header.value)
     && var round := RoundOf(Masked(source), header.value);
     round.One? ==> OnlyCodeHeaders(source, round.contract.close + 1))
  }

  lemma RoundsAlike(source: string, header: Header)
    requires header.start < header.open < |source| && Masked(source)[header.open] == '{' && !IsText(source, header)
    ensures SourceRound(source, header) == RoundOf(Masked(source), header)
  {
    hide CommentMask.Mask, CommentMask.LiteralMarks, FirstClose, CloseIn, SegmentsOf;
    ClosesAlike(source, header.open);
    ClosesBehind(Masked(source), header.open);
  }

  lemma SourceNext(source: string, i: nat)
    requires Find(Masked(source), i).Some? ==> !IsText(source, Find(Masked(source), i).value)
    ensures var header := Find(Masked(source), i);
      SourceTrace(source, i) ==
        if header.None? then Trace([], None)
        else
          var round := SourceRound(source, header.value);
          if round.Stop? then Trace([], Some(round.error))
          else Later(round.contract, SourceTrace(source, round.contract.close + 1))
  {
    hide Find, SourceRound, HeaderAt, IsText, Masked;
  }

  lemma OnlyCodeNext(source: string, i: nat)
    ensures var header := Find(Masked(source), i);
      OnlyCodeHeaders(source, i) <==>
        header.None? ||
        (&& !IsText(source, header.value)
         && var round := RoundOf(Masked(source), header.value);
         round.One? ==> OnlyCodeHeaders(source, round.contract.close + 1))
  {
    hide Find, RoundOf, HeaderAt, IsText, Masked;
  }

  lemma {:induction false} CodeHeadersGiveSource(source: string, i: nat)
    requires OnlyCodeHeaders(source, i)
    ensures TraceFrom(Masked(source), i) == SourceTrace(source, i)
    decreases |source| - i
  {
    hide Masked, IsText, RoundOf, SourceRound, Find, HeaderAt, TraceFrom, SourceTrace, OnlyCodeHeaders;
    var header := Find(Masked(source), i);
    OnlyCodeNext(source, i);
    TraceNext(Masked(source), i);
    SourceNext(source, i);
    if header.Some? {
      RoundsAlike(source, header.value);
      var round := RoundOf(Masked(source), header.value);
      if round.One? {
        CodeHeadersGiveSource(source, round.contract.close + 1);
      }
    }
  }

  // A contract, or an error, that comes from text.
  predicate FromText(source: string, c: Contract) {
    c.start < |source| && c.open < |source| && IsText(source, Header(c.start, c.open))
  }

  predicate FailsOnText(source: string, error: Option<Parsed>) {
    && error.Some? && error.value.UnclosedContract? && error.value.at < |source|
    && var open := HeaderAt(Masked(source), error.value.at);
    open.Some? && IsText(source, Header(error.value.at, open.value))
  }

  ghost predicate HoldsText(source: string, t: Trace) {
    (exists c <- t.contracts :: FromText(source, c)) || FailsOnText(source, t.error)
  }

  lemma LaterHoldsText(source: string, c: Contract, rest: Trace)
    ensures HoldsText(source, Later(c, rest)) <==> FromText(source, c) || HoldsText(source, rest)
  {
    assert forall d :: d in [c] + rest.contracts <==> d == c || d in rest.contracts;
  }

  lemma {:induction false} SourceHoldsNoText(source: string, i: nat)
    ensures !HoldsText(source, SourceTrace(source, i))
    decreases |source| - i
  {
    hide Masked, IsText, SourceRound, HeaderAt, HoldsText;
    var header := Find(Masked(source), i);
    if header.None? {
      NothingHoldsNoText(source);
    } else if IsText(source, header.value) {
      SourceHoldsNoText(source, header.value.start + 1);
    } else {
      var round := SourceRound(source, header.value);
      if round.Stop? {
        StopHoldsNoText(source, header.value, round.error);
      } else {
        SourceHoldsNoText(source, round.contract.close + 1);
        LaterHoldsText(source, round.contract, SourceTrace(source, round.contract.close + 1));
      }
    }
  }

  lemma NothingHoldsNoText(source: string)
    ensures !HoldsText(source, Trace([], None))
  {}

  lemma StopHoldsNoText(source: string, header: Header, error: Parsed)
    requires header.start < header.open < |source| && HeaderAt(Masked(source), header.start) == Some(header.open)
    requires error.UnclosedContract? ==> error.at == header.start
    ensures HoldsText(source, Trace([], Some(error))) <==> error.UnclosedContract? && IsText(source, header)
  {
    hide HeaderAt, Masked, IsText;
  }

  lemma {:induction false} TextHeadersShow(source: string, i: nat)
    requires !OnlyCodeHeaders(source, i)
    ensures HoldsText(source, TraceFrom(Masked(source), i))
    decreases |source| - i
  {
    hide Masked, IsText, RoundOf, HeaderAt, HoldsText, Find, TraceFrom, OnlyCodeHeaders;
    OnlyCodeNext(source, i);
    TraceNext(Masked(source), i);
    var header := Find(Masked(source), i);
    RoundIsContract(Masked(source), header.value);
    var round := RoundOf(Masked(source), header.value);
    if round.Stop? {
      StopHoldsNoText(source, header.value, round.error);
    } else {
      LaterHoldsText(source, round.contract, TraceFrom(Masked(source), round.contract.close + 1));
      if IsText(source, header.value) {
        RoundKeepsHeader(Masked(source), header.value);
      } else {
        TextHeadersShow(source, round.contract.close + 1);
      }
    }
  }

  lemma RoundKeepsHeader(masked: string, header: Header)
    requires header.start < header.open < |masked| && masked[header.open] == '{' && RoundOf(masked, header).One?
    ensures RoundOf(masked, header).contract.start == header.start
    ensures RoundOf(masked, header).contract.open == header.open
  {}

  // For every file: the loop finds the contracts of the source, up to the same error if there is one, exactly
  // when no header that it finds begins or ends in a string literal.
  lemma FindsContractsOfSourceExactly(source: string)
    ensures TraceFrom(Masked(source), 0) == SourceTrace(source, 0) <==> OnlyCodeHeaders(source, 0)
  {
    hide Masked, TraceFrom, SourceTrace, OnlyCodeHeaders, HoldsText;
    if OnlyCodeHeaders(source, 0) {
      CodeHeadersGiveSource(source, 0);
    } else {
      TextHeadersShow(source, 0);
      SourceHoldsNoText(source, 0);
    }
  }

  // So for a file that is parsed without an error.
  lemma ParsesContractsOfSourceExactly(source: string)
    requires Parse(Masked(source)).Found?
    ensures SourceTrace(source, 0) == Trace(Parse(Masked(source)).contracts, None) <==> OnlyCodeHeaders(source, 0)
  {
    hide Masked, TraceFrom, SourceTrace, OnlyCodeHeaders, MentionsContract;
    FindsContractsOfSourceExactly(source);
    ParsedIsTrace(Masked(source), 0);
  }

  // ---- A header in a string ----

  // A literal goes on up to its closing quote.
  lemma {:induction false} StaysInString(m: string, open: nat, k: nat, j: nat)
    requires open <= k <= j <= |m| && StateAt(m, open, k) == InString('"')
    requires forall i :: k <= i < j ==> m[i] != '"' && m[i] != '\\'
    ensures StateAt(m, open, j) == InString('"')
    decreases j
  {
    if j > k {
      StaysInString(m, open, k, j - 1);
    }
  }

  // A brace right before the last quote of the text is never matched.
  lemma QuoteSwallowsRest(m: string, open: nat)
    requires open + 1 < |m| && m[open] == '{' && m[open + 1] == '"'
    requires forall i :: open + 2 <= i < |m| ==> m[i] != '"' && m[i] != '\\'
    ensures FirstClose(m, open, open, '{', '}') == -1
  {
    hide FirstClose;
    assert StateAt(m, open, open + 1) == InCode;
    assert StateAt(m, open, open + 2) == InString('"');
    forall k | open <= k < |m|
      ensures !Closes(m, open, k, '{', '}')
    {
      if k >= open + 2 {
        StaysInString(m, open, open + 2, k);
      }
    }
    FirstIsNone(m, open, '{', '}');
  }

  lemma {:induction false} NothingToMask(s: string, mode: CommentMask.Mode)
    requires (mode.Code? || mode.Literal?) && forall i :: 0 <= i < |s| ==> s[i] != '/'
    ensures CommentMask.Mask(s, mode) == s
  {
    if s != [] {
      var m := CommentMask.Next(s, mode);
      NothingToMask(s[|m.out|..], m.mode);
      assert m.out == s[..|m.out|];
    }
  }

  predicate FreeOf(s: string, cs: string) {
    forall c <- s :: c !in cs
  }

  const SPECIAL := "\"'\\/"

  function WithLiteral(before: string, inside: string, after: string): string {
    before + "\"" + inside + "\"" + after
  }

  // If the first header that is found ends at the end of the only string literal, the file is refused,
  // whatever contracts follow.
  lemma HeaderInLiteralIsRefused(before: string, inside: string, after: string, start: nat)
    requires FreeOf(before, SPECIAL) && FreeOf(inside, SPECIAL) && FreeOf(after, SPECIAL)
    requires inside != [] && inside[|inside| - 1] == '{'
    requires Find(WithLiteral(before, inside, after), 0) == Some(Header(start, |before| + |inside|))
    ensures var source := WithLiteral(before, inside, after);
      && CommentMask.Mask(source, CommentMask.Code) == source
      && Parse(source) == UnclosedContract(start)
      && CommentMask.LiteralMarks(source, CommentMask.Code)[|before| + |inside|]
  {
    hide CommentMask.Mask, FirstClose, CommentMask.LiteralMarks, StateAt, WithLiteral, FreeOf, HeaderAt;
    var s, open := WithLiteral(before, inside, after), |before| + |inside|;
    LiteralCharacters(before, inside, after);
    NothingToMask(s, CommentMask.Code);
    QuoteSwallowsRest(s, open);
    LiteralsOfSource(s, open);
  }

  lemma LiteralCharacters(before: string, inside: string, after: string)
    requires FreeOf(before, SPECIAL) && FreeOf(inside, SPECIAL) && FreeOf(after, SPECIAL)
    requires inside != [] && inside[|inside| - 1] == '{'
    ensures var s, open := WithLiteral(before, inside, after), |before| + |inside|;
      && open + 1 < |s| && s[open] == '{' && s[open + 1] == '"' && (forall i :: 0 <= i < |s| ==> s[i] != '/')
      && (forall i :: open + 2 <= i < |s| ==> s[i] != '"' && s[i] != '\\')
      && StateAt(s, 0, open) == InString('"')
  {
    hide StateAt;
    var s, open := WithLiteral(before, inside, after), |before| + |inside|;
    assert forall i :: 0 <= i < |before| ==> s[i] == before[i];
    assert forall i :: |before| < i <= open ==> s[i] == inside[i - |before| - 1];
    assert forall i :: open + 1 < i < |s| ==> s[i] == after[i - open - 2];
    assert s[|before|] == '"' && s[open + 1] == '"';
    assert '"' in SPECIAL && '\'' in SPECIAL && '\\' in SPECIAL && '/' in SPECIAL;
    InCodeUpTo(s, |before|);
    Step(s, 0, |before|);
    StaysInString(s, 0, |before| + 1, open);
  }

  lemma {:induction false} InCodeUpTo(s: string, j: nat)
    requires j <= |s| && forall i :: 0 <= i < j ==> !IsQuote(s[i])
    ensures StateAt(s, 0, j) == InCode
  {
    if j > 0 {
      InCodeUpTo(s, j - 1);
    }
  }

  // A valid file of this kind: string constant S="contract B {";contract C{}
  const BEFORE := "string constant S="
  const INSIDE := "contract B {"
  const AFTER := ";contract C{}"

  lemma HeaderInString()
    ensures Find(WithLiteral(BEFORE, INSIDE, AFTER), 0) == Some(Header(19, 30))
  {
    var s := WithLiteral(BEFORE, INSIDE, AFTER);
    forall p | 0 <= p < 19
      ensures HeaderAt(s, p).None?
    {
      NoKeywordBefore(s, p);
    }
    HeaderInStringMatches();
  }

  predicate LikeKeyword(c: char, d: char) {
    (c == 'c' && d == 't') || (c == 'i' && d == 'e') || (c == 'l' && d == 'r')
  }

  lemma KeywordLetters(s: string, p: nat)
    requires KeywordAt(s, p) != 0
    ensures p + 3 < |s| && LikeKeyword(s[p], s[p + 3])
  {
    var k := s[p..p + KeywordAt(s, p)];
    assert s[p] == k[0] && s[p + 3] == k[3];
  }

  lemma NotLikeKeyword(p: nat)
    requires p < 19
    ensures var t := "string constant S=\"con"; p + 3 < |t| && !LikeKeyword(t[p], t[p + 3])
  {
    assert p == 0 || p == 1 || p == 2 || p == 3 || p == 4 || p == 5 || p == 6 || p == 7 || p == 8 || p == 9
      || p == 10 || p == 11 || p == 12 || p == 13 || p == 14 || p == 15 || p == 16 || p == 17 || p == 18;
  }

  lemma NoKeywordBefore(s: string, p: nat)
    requires p < 19 && s == WithLiteral(BEFORE, INSIDE, AFTER)
    ensures KeywordAt(s, p) == 0
  {
    hide KeywordAt, LikeKeyword;
    assert s[..22] == "string constant S=\"con";
    assert s[p] == s[..22][p] && s[p + 3] == s[..22][p + 3];
    NotLikeKeyword(p);
    if KeywordAt(s, p) != 0 {
      KeywordLetters(s, p);
    }
  }

  lemma HeaderInStringMatches()
    ensures HeaderAt(WithLiteral(BEFORE, INSIDE, AFTER), 19) == Some(30)
  {
    var s := WithLiteral(BEFORE, INSIDE, AFTER);
    assert s[19..27] == CONTRACT;
    assert s[18] == '"' && s[27] == ' ' && s[28] == 'B' && s[29] == ' ' && s[30] == '{';
    assert MatchesWith(s, 19, 27, 28, 29, 30);
    HeaderIsMatch(s, 19, 30);
  }

  lemma HeaderInStringIsRefused()
    ensures Parse(CommentMask.Mask(WithLiteral(BEFORE, INSIDE, AFTER), CommentMask.Code)) == UnclosedContract(19)
    ensures CommentMask.LiteralMarks(WithLiteral(BEFORE, INSIDE, AFTER), CommentMask.Code)[30]
  {
    hide Find, Parse, CommentMask.Mask, CommentMask.LiteralMarks;
    HeaderInString();
    SpecialFree();
    HeaderInLiteralIsRefused(BEFORE, INSIDE, AFTER, 19);
  }

  lemma SpecialFree()
    ensures FreeOf(BEFORE, SPECIAL) && FreeOf(INSIDE, SPECIAL) && FreeOf(AFTER, SPECIAL)
  {}
}
