// packages/analyzer/src/parser.js: findMatching and scanTopLevelSegments, over the masked text. The
// characters that steer them are all ASCII, so it does not matter to them whether a character of the text
// is a code unit or a code point.

module Segments {
  import opened Results
  import opened Text

  // ---- Reading string literals ----

  datatype Lex = InCode | InString(quote: char) | Escaped(quote: char)

  function After(state: Lex, c: char): Lex {
    match state
    case InCode => if IsQuote(c) then InString(c) else InCode
    case InString(quote) => if c == '\\' then Escaped(quote) else if c == quote then InCode else state
    case Escaped(quote) => InString(quote)
  }

  // The state before character j of a reading that begins in code at start.
  function StateAt(s: string, start: nat, j: nat): Lex
    requires start <= j <= |s|
    decreases j
  {
    if j == start then InCode else After(StateAt(s, start, j - 1), s[j - 1])
  }

  // How many more opening than closing characters stand outside literals between start and j.
  function Depth(s: string, start: nat, j: nat, open: char, close: char): int
    requires start <= j <= |s|
    decreases j
  {
    if j == start then 0
    else Depth(s, start, j - 1, open, close) + Change(s, start, j - 1, open, close)
  }

  function Change(s: string, start: nat, j: nat, open: char, close: char): int
    requires start <= j < |s|
  {
    if StateAt(s, start, j) != InCode || IsQuote(s[j]) then 0
    else (if s[j] == open then 1 else 0) - (if s[j] == close then 1 else 0)
  }

  // Character j closes what was opened from start on.
  predicate Closes(s: string, start: nat, j: nat, open: char, close: char)
    requires start <= j < |s|
  {
    && StateAt(s, start, j) == InCode && !IsQuote(s[j])
    && s[j] == close && Depth(s, start, j + 1, open, close) == 0
  }

  // The first such character from j on, or -1.
  function FirstClose(s: string, start: nat, j: nat, open: char, close: char): (r: int)
    requires start <= j <= |s|
    ensures r == -1 || (j <= r < |s| && Closes(s, start, r, open, close))
    ensures forall k :: j <= k < |s| && (r == -1 || k < r) ==> !Closes(s, start, k, open, close)
    decreases |s| - j
  {
    if j == |s| then -1
    else if Closes(s, start, j, open, close) then j
    else FirstClose(s, start, j + 1, open, close)
  }

  function Reading(quote: Option<char>): Lex {
    if quote.Some? then InString(quote.value) else InCode
  }

  method FindMatching(source: string, start: nat, open: char, close: char) returns (r: int)
    requires start <= |source|
    ensures r == FirstClose(source, start, start, open, close)
  {
    var depth := 0;
    var quote: Option<char> := None;
    var index := start;
    while index < |source|
      invariant start <= index
      invariant index <= |source| ==> StateAt(source, start, index) == Reading(quote)
      invariant index <= |source| ==> depth == Depth(source, start, index, open, close)
      invariant forall k :: start <= k < index && k < |source| ==> !Closes(source, start, k, open, close)
    {
      var current := source[index];
      if quote.Some? {
        if current == '\\' {
          index := index + 2;
          continue;
        }
        if current == quote.value {
          quote := None;
        }
      } else if IsQuote(current) {
        quote := Some(current);
      } else {
        if current == open {
          depth := depth + 1;
        }
        if current == close {
          depth := depth - 1;
          if depth == 0 {
            FirstIs(source, start, index, open, close);
            return index;
          }
        }
      }
      index := index + 1;
    }
    FirstIsNone(source, start, open, close);
    return -1;
  }

  lemma FirstIs(s: string, start: nat, j: nat, open: char, close: char)
    requires start <= j < |s| && Closes(s, start, j, open, close)
    requires forall k :: start <= k < j ==> !Closes(s, start, k, open, close)
    ensures FirstClose(s, start, start, open, close) == j
  {
    hide Closes;
    var r := FirstClose(s, start, start, open, close);
  }

  lemma FirstIsNone(s: string, start: nat, open: char, close: char)
    requires start <= |s|
    requires forall k :: start <= k < |s| ==> !Closes(s, start, k, open, close)
    ensures FirstClose(s, start, start, open, close) == -1
  {
    hide Closes;
    var r := FirstClose(s, start, start, open, close);
  }

  // ---- Nesting ----

  // A later reading that starts in code goes in step with the earlier one.
  lemma {:induction false} InStep(s: string, start: nat, k: nat, j: nat, open: char, close: char)
    requires start <= k <= j <= |s| && StateAt(s, start, k) == InCode
    ensures StateAt(s, start, j) == StateAt(s, k, j)
    ensures Depth(s, start, j, open, close) == Depth(s, start, k, open, close) + Depth(s, k, j, open, close)
    decreases j
  {
    if j > k {
      InStep(s, start, k, j - 1, open, close);
    }
  }

  // As long as nothing has closed, something is open.
  lemma {:induction false} StillOpen(s: string, start: nat, j: nat, open: char, close: char)
    requires start < j <= |s| && s[start] == open && open != close && !IsQuote(open)
    requires forall k :: start <= k < j ==> !Closes(s, start, k, open, close)
    ensures Depth(s, start, j, open, close) >= 1
    decreases j
  {
    if j > start + 1 {
      StillOpen(s, start, j - 1, open, close);
      assert !Closes(s, start, j - 1, open, close);
    } else {
      assert Depth(s, start, start, open, close) == 0;
    }
  }

  // The brace at open is matched by the one at close.
  predicate Matched(m: string, open: nat, close: int) {
    open < |m| && m[open] == '{' && close >= 0 && close == FirstClose(m, open, open, '{', '}')
  }

  lemma BlockInsideMatches(m: string, open: nat, close: int, cursor: nat)
    requires Matched(m, open, close)
    requires open < cursor < close && StateAt(m, open, cursor) == InCode && m[cursor] == '{'
    ensures cursor < FirstClose(m, cursor, cursor, '{', '}') < close
  {
    hide FirstClose;
    StillOpen(m, open, cursor, '{', '}');
    InStep(m, open, cursor, close + 1, '{', '}');
    assert Depth(m, cursor, close + 1, '{', '}') < 0;
    var inner := FirstClose(m, cursor, cursor, '{', '}');
    if inner == -1 || inner >= close {
      StillOpen(m, cursor, close, '{', '}');
      assert false;
    }
    assert Depth(m, cursor, cursor, '{', '}') == 0;
    assert inner != cursor;
  }

  // ---- The segment scan ----

  // Character positions, end exclusive.
  datatype Segment = Statement(start: nat, end: nat) | Block(start: nat, end: nat, headerEnd: nat)

  function Count(n: int, c: char, open: char, close: char): int {
    if c == open then n + 1 else if c == close then n - 1 else n
  }

  function Prepend(first: Segment, rest: Outcome<seq<Segment>>): Outcome<seq<Segment>> {
    if rest.Ok? then Ok([first] + rest.value) else Fail
  }

  // The segments before filtering, from cursor on; failing is the "Unclosed block" error.
  function Scan(m: string, cursor: nat, segmentStart: nat, paren: int, bracket: int, quote: Option<char>, end: nat)
      : (r: Outcome<seq<Segment>>)
    requires segmentStart <= cursor && end <= |m|
    ensures r.Ok? ==> forall g <- r.value :: g.start < g.end <= |m|
    decreases end - cursor
  {
    if cursor >= end then Ok([])
    else
      var c := m[cursor];
      if quote.Some? then
        if c == '\\' then Scan(m, cursor + 2, segmentStart, paren, bracket, quote, end)
        else Scan(m, cursor + 1, segmentStart, paren, bracket, if c == quote.value then None else quote, end)
      else if IsQuote(c) then Scan(m, cursor + 1, segmentStart, paren, bracket, Some(c), end)
      else
        var p, b := Count(paren, c, '(', ')'), Count(bracket, c, '[', ']');
        if p == 0 && b == 0 && c == ';' then
          Prepend(Statement(segmentStart, cursor + 1), Scan(m, cursor + 1, cursor + 1, 0, 0, None, end))
        else if p == 0 && b == 0 && c == '{' then
          var close := FirstClose(m, cursor, cursor, '{', '}');
          if close < 0 || close > end then Fail
          else Prepend(Block(segmentStart, close + 1, cursor), Scan(m, close + 1, close + 1, 0, 0, None, end))
        else Scan(m, cursor + 1, segmentStart, p, b, None, end)
  }

  // What trim leaves empty.
  predicate IsBlank(s: string) {
    forall c <- s :: IsSpace(c as int)
  }

  function WithoutBlank(m: string, segments: seq<Segment>): (r: seq<Segment>)
    requires forall g <- segments :: g.start < g.end <= |m|
    ensures forall g <- r :: g in segments && !IsBlank(m[g.start..g.end])
  {
    if segments == [] then []
    else
      var g := segments[0];
      (if IsBlank(m[g.start..g.end]) then [] else [g]) + WithoutBlank(m, segments[1..])
  }

  function Joined(first: seq<Segment>, rest: Outcome<seq<Segment>>): Outcome<seq<Segment>> {
    if rest.Ok? then Ok(first + rest.value) else Fail
  }

  lemma JoinedPrepend(first: seq<Segment>, g: Segment, rest: Outcome<seq<Segment>>)
    ensures Joined(first, Prepend(g, rest)) == Joined(first + [g], rest)
  {
    if rest.Ok? {
      assert first + ([g] + rest.value) == (first + [g]) + rest.value;
    }
  }

  method ScanTopLevelSegments(masked: string, start: nat, end: nat) returns (r: Outcome<seq<Segment>>)
    requires start <= end <= |masked|
    ensures var all := Scan(masked, start, start, 0, 0, None, end);
      r == if all.Ok? then Ok(WithoutBlank(masked, all.value)) else Fail
  {
    hide FirstClose, WithoutBlank, IsBlank;
    var segments: seq<Segment> := [];
    var cursor: nat, segmentStart: nat := start, start;
    var paren, bracket := 0, 0;
    var quote: Option<char> := None;
    ghost var all := Scan(masked, start, start, 0, 0, None, end);
    assert all.Ok? ==> [] + all.value == all.value;
    while cursor < end
      invariant segmentStart <= cursor
      invariant Joined(segments, Scan(masked, cursor, segmentStart, paren, bracket, quote, end)) == all
      decreases end - cursor
    {
      var current := masked[cursor];
      if quote.Some? {
        if current == '\\' {
          cursor := cursor + 2;
        } else {
          if current == quote.value {
            quote := None;
          }
          cursor := cursor + 1;
        }
        continue;
      }
      if IsQuote(current) {
        quote := Some(current);
        cursor := cursor + 1;
        continue;
      }
      if current == '(' {
        paren := paren + 1;
      } else if current == ')' {
        paren := paren - 1;
      } else if current == '[' {
        bracket := bracket + 1;
      } else if current == ']' {
        bracket := bracket - 1;
      }
      if paren == 0 && bracket == 0 && current == ';' {
        JoinedPrepend(segments, Statement(segmentStart, cursor + 1),
                      Scan(masked, cursor + 1, cursor + 1, 0, 0, None, end));
        segments := segments + [Statement(segmentStart, cursor + 1)];
        segmentStart := cursor + 1;
        cursor := cursor + 1;
        continue;
      }
      if paren == 0 && bracket == 0 && current == '{' {
        var close := FindMatching(masked, cursor, '{', '}');
        if close < 0 || close > end {
          return Fail;
        }
        JoinedPrepend(segments, Block(segmentStart, close + 1, cursor),
                      Scan(masked, close + 1, close + 1, 0, 0, None, end));
        segments := segments + [Block(segmentStart, close + 1, cursor)];
        segmentStart := close + 1;
        cursor := close + 1;
        continue;
      }
      cursor := cursor + 1;
    }
    assert segments + [] == segments;
    return Ok(WithoutBlank(masked, segments));
  }

  // ---- What the scan of a contract's body yields ----

  // A ';' or an opening brace outside literals, and outside the parentheses and brackets opened since start.
  predicate Cut(m: string, start: nat, j: nat)
    requires start <= j < |m|
  {
    && StateAt(m, start, j) == InCode && (m[j] == ';' || m[j] == '{')
    && Depth(m, start, j, '(', ')') == 0 && Depth(m, start, j, '[', ']') == 0
  }

  predicate NoCut(m: string, start: nat, end: nat)
    requires start <= end <= |m|
  {
    forall j :: start <= j < end ==> !Cut(m, start, j)
  }

  // The segments follow each other without a gap from start on. Each reaches to the first cut behind its
  // start, or, if that is a brace, to the one that matches it; behind the last segment there is no cut.
  predicate Tiles(m: string, segments: seq<Segment>, start: nat, close: nat)
    requires start <= close <= |m|
  {
    if segments == [] then NoCut(m, start, close)
    else
      var g := segments[0];
      var cut := if g.Statement? then g.end - 1 else g.headerEnd;
      && g.start == start <= cut < g.end <= close
      && Cut(m, start, cut) && NoCut(m, start, cut)
      && m[cut] == (if g.Statement? then ';' else '{')
      && (g.Block? ==> Matched(m, cut, g.end - 1))
      && Tiles(m, segments[1..], g.end, close)
  }

  // There is only one way to tile a body.
  lemma {:induction false} TilesAreUnique(m: string, a: seq<Segment>, b: seq<Segment>, start: nat, close: nat)
    requires start <= close <= |m| && Tiles(m, a, start, close) && Tiles(m, b, start, close)
    ensures a == b
  {
    hide FirstClose, Cut;
    if a != [] && b != [] {
      assert a[0] == b[0];
      TilesAreUnique(m, a[1..], b[1..], a[0].end, close);
      assert a == [a[0]] + a[1..] && b == [b[0]] + b[1..];
    }
  }

  lemma NoCutOnward(m: string, start: nat, j: nat)
    requires start <= j < |m| && NoCut(m, start, j) && !Cut(m, start, j)
    ensures NoCut(m, start, j + 1)
  {
    hide Cut;
  }

  lemma {:induction false} BodyFrom(m: string, open: nat, close: nat, cursor: nat, segmentStart: nat,
                                    paren: int, bracket: int, quote: Option<char>)
    requires Matched(m, open, close)
    requires open < segmentStart <= cursor <= close && StateAt(m, open, segmentStart) == InCode
    requires StateAt(m, segmentStart, cursor) == Reading(quote) && NoCut(m, segmentStart, cursor)
    requires paren == Depth(m, segmentStart, cursor, '(', ')') && bracket == Depth(m, segmentStart, cursor, '[', ']')
    ensures var r := Scan(m, cursor, segmentStart, paren, bracket, quote, close);
      r.Ok? && Tiles(m, r.value, segmentStart, close)
    decreases close - cursor, 1
  {
    hide FirstClose, NoCut, StateAt, Depth;
    InStep(m, open, segmentStart, cursor, '{', '}');
    if cursor < close {
      var c := m[cursor];
      var p, b := Count(paren, c, '(', ')'), Count(bracket, c, '[', ']');
      Step(m, segmentStart, cursor);
      if Cut(m, segmentStart, cursor) {
        CutEndsSegment(m, open, close, cursor, segmentStart, paren, bracket, quote);
      } else {
        NoCutOnward(m, segmentStart, cursor);
        if quote.Some? && c == '\\' {
          EscapeStaysInside(m, open, close, cursor);
          Step(m, segmentStart, cursor + 1);
          NoCutOnward(m, segmentStart, cursor + 1);
          BodyFrom(m, open, close, cursor + 2, segmentStart, paren, bracket, quote);
        } else if quote.Some? {
          BodyFrom(m, open, close, cursor + 1, segmentStart, paren, bracket, if c == quote.value then None else quote);
        } else if IsQuote(c) {
          BodyFrom(m, open, close, cursor + 1, segmentStart, paren, bracket, Some(c));
        } else {
          BodyFrom(m, open, close, cursor + 1, segmentStart, p, b, None);
        }
      }
    }
  }

  // One character further.
  lemma Step(m: string, start: nat, j: nat)
    requires start <= j < |m|
    ensures StateAt(m, start, j + 1) == After(StateAt(m, start, j), m[j])
    ensures forall open: char, close: char ::
      Depth(m, start, j + 1, open, close) == Depth(m, start, j, open, close) + Change(m, start, j, open, close)
  {}

  lemma Restart(m: string, start: nat)
    requires start <= |m|
    ensures StateAt(m, start, start) == InCode && NoCut(m, start, start)
    ensures Depth(m, start, start, '(', ')') == 0 && Depth(m, start, start, '[', ']') == 0
  {}

  lemma {:induction false} CutEndsSegment(m: string, open: nat, close: nat, cursor: nat, segmentStart: nat,
                                          paren: int, bracket: int, quote: Option<char>)
    requires Matched(m, open, close)
    requires open < segmentStart <= cursor < close && StateAt(m, open, cursor) == InCode
    requires StateAt(m, segmentStart, cursor) == Reading(quote) && NoCut(m, segmentStart, cursor)
    requires paren == Depth(m, segmentStart, cursor, '(', ')') && bracket == Depth(m, segmentStart, cursor, '[', ']')
    requires Cut(m, segmentStart, cursor)
    ensures var r := Scan(m, cursor, segmentStart, paren, bracket, quote, close);
      r.Ok? && Tiles(m, r.value, segmentStart, close)
    decreases close - cursor, 0
  {
    hide FirstClose, NoCut, StateAt, Depth;
    if m[cursor] == ';' {
      Restart(m, cursor + 1);
      Step(m, open, cursor);
      BodyFrom(m, open, close, cursor + 1, cursor + 1, 0, 0, None);
    } else {
      var inner := FirstClose(m, cursor, cursor, '{', '}');
      BlockEndsInCode(m, open, close, cursor);
      Restart(m, inner + 1);
      BodyFrom(m, open, close, inner + 1, inner + 1, 0, 0, None);
    }
  }

  lemma EscapeStaysInside(m: string, open: nat, close: nat, cursor: nat)
    requires Matched(m, open, close)
    requires open < cursor < close && StateAt(m, open, cursor).InString? && m[cursor] == '\\'
    ensures cursor + 2 <= close && StateAt(m, open, cursor + 2) == StateAt(m, open, cursor)
  {
    hide FirstClose;
    assert StateAt(m, open, cursor + 1).Escaped?;
    assert Closes(m, open, close, '{', '}');
  }

  lemma BlockEndsInCode(m: string, open: nat, close: nat, cursor: nat)
    requires Matched(m, open, close)
    requires open < cursor < close && StateAt(m, open, cursor) == InCode && m[cursor] == '{'
    ensures var inner := FirstClose(m, cursor, cursor, '{', '}');
      cursor < inner < close && Matched(m, cursor, inner) && StateAt(m, open, inner + 1) == InCode
  {
    hide FirstClose;
    BlockInsideMatches(m, open, close, cursor);
    var inner := FirstClose(m, cursor, cursor, '{', '}');
    InStep(m, open, cursor, inner, '{', '}');
    assert Closes(m, cursor, inner, '{', '}');
  }

  // Inside braces that findMatching has matched, no block is unclosed, and the segments tile the body.
  lemma NoUnclosedBlock(m: string, open: nat, close: nat)
    requires Matched(m, open, close)
    ensures var r := Scan(m, open + 1, open + 1, 0, 0, None, close);
      r.Ok? && Tiles(m, r.value, open + 1, close)
  {
    hide FirstClose;
    assert close != open by {
      assert Closes(m, open, close, '{', '}');
    }
    Restart(m, open + 1);
    assert StateAt(m, open, open) == InCode && StateAt(m, open, open + 1) == InCode;
    BodyFrom(m, open, close, open + 1, open + 1, 0, 0, None);
  }

  // The filter keeps the order: later segments start where earlier ones have ended, or behind.
  lemma {:induction false} TilesAreOrdered(m: string, segments: seq<Segment>, start: nat, close: nat)
    requires start <= close <= |m| && Tiles(m, segments, start, close)
    requires forall g <- segments :: g.start < g.end <= |m|
    ensures var kept := WithoutBlank(m, segments);
      && (forall g <- kept :: start <= g.start < g.end <= close)
      && (forall i, j :: 0 <= i < j < |kept| ==> kept[i].end <= kept[j].start)
    ensures forall g <- segments :: !IsBlank(m[g.start..g.end]) ==> g in WithoutBlank(m, segments)
  {
    hide IsBlank, Matched, Cut, NoCut;
    if segments != [] {
      TilesAreOrdered(m, segments[1..], segments[0].end, close);
    }
  }
}
