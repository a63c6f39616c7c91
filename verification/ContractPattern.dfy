// packages/analyzer/src/parser.js: the contract pattern of parseSolidityFile, as the regular expression
// \b(contract|interface|library)\s+([A-Za-z_$][A-Za-z0-9_$]*)[^\{;]*\{ and as what a search for it yields.

module ContractPattern {
  import opened Results
  import opened Text

  const CONTRACT := "contract"
  const INTERFACE := "interface"
  const LIBRARY := "library"

  predicate WordChar(c: char) {
    'a' <= c <= 'z' || 'A' <= c <= 'Z' || '0' <= c <= '9' || c == '_'
  }

  predicate NameStart(c: char) {
    'a' <= c <= 'z' || 'A' <= c <= 'Z' || c == '_' || c == '$'
  }

  predicate NameChar(c: char) {
    NameStart(c) || '0' <= c <= '9'
  }

  predicate At(s: string, p: nat, word: string) {
    p + |word| <= |s| && s[p..p + |word|] == word
  }

  // The length of the keyword at p, or 0.
  function KeywordAt(s: string, p: nat): (n: nat)
    ensures n == 8 || n == 9 || n == 7 || n == 0
    ensures p + n <= |s| || n == 0
  {
    if At(s, p, CONTRACT) then 8 else if At(s, p, INTERFACE) then 9 else if At(s, p, LIBRARY) then 7 else 0
  }

  // \b before the word that begins at p.
  predicate WordBegins(s: string, p: nat) {
    0 < p <= |s| ==> !WordChar(s[p - 1])
  }

  // ---- The pattern ----

  predicate Letter(c: char) {
    0x41 <= c as int <= 0x5A || 0x61 <= c as int <= 0x7A
  }

  predicate Decimal(c: char) {
    0x30 <= c as int <= 0x39
  }

  predicate IsKeyword(word: string) {
    word == "contract" || word == "interface" || word == "library"
  }

  // The pattern matches from p up to the brace at open: a keyword up to k, not within a word, spaces behind it, a
  // name from w to n, and neither braces nor semicolons after that.
  ghost predicate MatchesWith(s: string, p: nat, k: nat, w: nat, n: nat, open: nat) {
    && p < k < w < n <= open < |s|
    && IsKeyword(s[p..k])
    && (p > 0 ==> !Letter(s[p - 1]) && !Decimal(s[p - 1]) && s[p - 1] != '_')
    && (forall i :: k <= i < w ==> IsSpace(s[i] as int))
    && (Letter(s[w]) || s[w] in {'_', '$'})
    && (forall i :: w < i < n ==> Letter(s[i]) || Decimal(s[i]) || s[i] in {'_', '$'})
    && (forall i :: n <= i < open ==> s[i] != '{' && s[i] != ';')
    && s[open] == '{'
  }

  ghost predicate Matches(s: string, p: nat, open: nat) {
    exists k: nat, w: nat, n: nat :: MatchesWith(s, p, k, w, n, open)
  }

  lemma KeywordIs(s: string, p: nat, k: nat)
    requires p < k <= |s|
    ensures IsKeyword(s[p..k]) <==> KeywordAt(s, p) != 0 && k == p + KeywordAt(s, p)
  {
    if IsKeyword(s[p..k]) {
      assert s[p] == s[p..k][0];
      assert KeywordAt(s, p) == |s[p..k]|;
    }
  }

  // ---- Searching for it ----

  function AfterSpaces(s: string, i: nat): (w: nat)
    requires i <= |s|
    ensures i <= w <= |s| && (forall k :: i <= k < w ==> IsSpace(s[k] as int))
    ensures w < |s| ==> !IsSpace(s[w] as int)
    decreases |s| - i
  {
    if i < |s| && IsSpace(s[i] as int) then AfterSpaces(s, i + 1) else i
  }

  // The first brace or semicolon from i on, if it is a brace.
  function BraceFrom(s: string, i: nat): (r: Option<nat>)
    requires i <= |s|
    ensures r.Some? ==> i <= r.value < |s| && s[r.value] == '{'
    ensures r.Some? ==> forall k :: i <= k < r.value ==> s[k] != '{' && s[k] != ';'
    ensures r.None? ==> forall k :: i <= k < |s| && s[k] == '{' ==> exists j :: i <= j < k && s[j] == ';'
    decreases |s| - i
  {
    if i == |s| || s[i] == ';' then None
    else if s[i] == '{' then Some(i)
    else BraceFrom(s, i + 1)
  }

  // The brace of the header that starts at p.
  function HeaderAt(s: string, p: nat): (r: Option<nat>)
    ensures r.Some? ==> p < r.value < |s| && s[r.value] == '{'
  {
    var n := KeywordAt(s, p);
    if n == 0 || !WordBegins(s, p) then None
    else
      var w := AfterSpaces(s, p + n);
      if p + n < w < |s| && NameStart(s[w]) then BraceFrom(s, w + 1) else None
  }

  // It is the brace up to which the pattern matches, and the first one behind p (indexOf finds it).
  lemma HeaderIsMatch(s: string, p: nat, open: nat)
    ensures HeaderAt(s, p) == Some(open) <==> Matches(s, p, open)
    ensures HeaderAt(s, p) == Some(open) ==> forall k :: p <= k < open ==> s[k] != '{'
  {
    hide HeaderAt, MatchesWith;
    if HeaderAt(s, p) == Some(open) {
      HeaderMatches(s, p, open);
      NoBraceBefore(s, p, open);
    }
    if Matches(s, p, open) {
      var k: nat, w: nat, n: nat :| MatchesWith(s, p, k, w, n, open);
      MatchIsHeader(s, p, k, w, n, open);
    }
  }

  lemma HeaderMatches(s: string, p: nat, open: nat)
    requires HeaderAt(s, p) == Some(open)
    ensures var k := p + KeywordAt(s, p);
      k <= |s| && var w := AfterSpaces(s, k); w < |s| && MatchesWith(s, p, k, w, w + 1, open)
  {
    hide KeywordAt, IsSpace, AfterSpaces, BraceFrom, IsKeyword;
    KeywordIs(s, p, p + KeywordAt(s, p));
  }

  lemma NoBraceBefore(s: string, p: nat, open: nat)
    requires HeaderAt(s, p) == Some(open)
    ensures forall k :: p <= k < open ==> s[k] != '{'
  {
    hide KeywordAt, IsSpace, AfterSpaces, BraceFrom;
    KeywordHasNoBrace(s, p);
    SpacesAreNoBraces(s, p + KeywordAt(s, p));
  }

  lemma SpacesAreNoBraces(s: string, k: nat)
    requires k <= |s|
    ensures forall i :: k <= i < AfterSpaces(s, k) ==> s[i] != '{'
  {}

  lemma MatchIsHeader(s: string, p: nat, k: nat, w: nat, n: nat, open: nat)
    requires MatchesWith(s, p, k, w, n, open)
    ensures HeaderAt(s, p) == Some(open)
  {
    hide KeywordAt, IsSpace, AfterSpaces, BraceFrom;
    KeywordIs(s, p, k);
    SpacesEnd(s, k, w);
    NamesHaveNoBrace(s, w, n);
    BraceIs(s, w + 1, open);
  }

  lemma NamesHaveNoBrace(s: string, w: nat, n: nat)
    requires w < n <= |s| && forall i :: w < i < n ==> NameChar(s[i])
    ensures forall i :: w < i < n ==> s[i] != '{' && s[i] != ';'
  {}

  lemma SpacesEnd(s: string, i: nat, w: nat)
    requires i <= w < |s| && (forall k :: i <= k < w ==> IsSpace(s[k] as int)) && NameStart(s[w])
    ensures AfterSpaces(s, i) == w
  {
    var v := AfterSpaces(s, i);
    assert !IsSpace(s[w] as int);
  }

  lemma BraceIs(s: string, i: nat, open: nat)
    requires i <= open < |s| && s[open] == '{' && forall k :: i <= k < open ==> s[k] != '{' && s[k] != ';'
    ensures BraceFrom(s, i) == Some(open)
  {
    var r := BraceFrom(s, i);
  }

  lemma KeywordHasNoBrace(s: string, p: nat)
    ensures forall k :: p <= k < p + KeywordAt(s, p) ==> s[k] != '{'
  {
    var n := KeywordAt(s, p);
    forall k | p <= k < p + n
      ensures s[k] != '{'
    {
      assert s[k] == s[p..p + n][k - p];
    }
  }

  // Where a header starts, and its brace.
  datatype Header = Header(start: nat, open: nat)

  // exec with lastIndex i: the leftmost match that starts at i or behind.
  function Find(s: string, i: nat): (r: Option<Header>)
    ensures r.Some? ==> i <= r.value.start < r.value.open < |s| && HeaderAt(s, r.value.start) == Some(r.value.open)
    ensures r.Some? ==> forall p :: i <= p < r.value.start ==> HeaderAt(s, p).None?
    ensures r.None? ==> forall p :: i <= p < |s| ==> HeaderAt(s, p).None?
    decreases |s| - i
  {
    if i >= |s| then None
    else
      var open := HeaderAt(s, i);
      if open.Some? then Some(Header(i, open.value)) else Find(s, i + 1)
  }

  // ---- \b(contract|interface|library)\b ----

  predicate WholeKeywordAt(s: string, p: nat) {
    var n := KeywordAt(s, p);
    n != 0 && WordBegins(s, p) && (p + n < |s| ==> !WordChar(s[p + n]))
  }

  predicate MentionsContract(s: string) {
    exists p :: 0 <= p < |s| && WholeKeywordAt(s, p)
  }
}
