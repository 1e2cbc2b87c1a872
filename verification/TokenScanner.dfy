/** scanTokens over the text runs of a DOCX body: finding {tokens}, placing each in its run,
    and keeping the stack of open sections. A char stands for a UTF-16 code unit. */
module TokenScanner {
  import opened Prelude

  datatype Kind = Var | Section | Inverted | Closing

  // Run k is the one the source calls run_k.
  datatype Token = Token(kind: Kind, ident: string, start: nat, end: nat, runId: nat)

  datatype ParseError =
    | SplitAcrossRuns(runIds: seq<nat>, raw: string)
    | MalformedToken(raw: string, offset: nat)
    | ReservedIdent(ident: string, offset: nat)
    | NestedSectionTooDeep(ident: string, depth: int)
    | UnmatchedClosing(ident: string, location: Option<nat>)

  datatype Span = Span(start: nat, end: nat)

  const MAX_SECTION_DEPTH := 1

  const RESERVED_IDENTS: seq<string> :=
    ["__proto__", "constructor", "prototype", "toString", "valueOf", "hasOwnProperty", "tenant_id", "document_id",
     "template_version_id", "revision_id", "session_id"]

  // ------------------------------------------------------------- the grammar

  predicate IsBrace(c: char) {
    c == '{' || c == '}'
  }

  predicate IsSpace(c: char) {
    || c in {'\t', '\n', '\U{000B}', '\U{000C}', '\r', ' ', '\U{00A0}', '\U{1680}', '\U{2028}', '\U{2029}'}
    || '\U{2000}' <= c <= '\U{200A}' || c in {'\U{202F}', '\U{205F}', '\U{3000}', '\U{FEFF}'}
  }

  function Trim(s: string): string
    decreases |s|
  {
    if s == [] then s
    else if IsSpace(s[0]) then Trim(s[1..])
    else if IsSpace(s[|s| - 1]) then Trim(s[..|s| - 1])
    else s
  }

  predicate IdentStart(c: char) {
    'A' <= c <= 'Z' || 'a' <= c <= 'z' || c == '_'
  }

  predicate IdentPart(c: char) {
    IdentStart(c) || '0' <= c <= '9'
  }

  predicate IsValidIdent(s: string) {
    |s| > 0 && IdentStart(s[0]) && forall i :: 0 < i < |s| ==> IdentPart(s[i])
  }

  predicate IsReservedIdent(s: string) {
    Among(s, RESERVED_IDENTS)
  }

  predicate Among(s: string, words: seq<string>) {
    words != [] && (s == words[0] || Among(s, words[1..]))
  }

  // ------------------------------------- the pattern /\{([#^/])?([^{}]+)\}/g

  function NextBrace(full: string, i: nat): (j: nat)
    requires i <= |full|
    ensures i <= j <= |full| && (forall k :: i <= k < j ==> !IsBrace(full[k])) && (j < |full| ==> IsBrace(full[j]))
    decreases |full| - i
  {
    if i == |full| || IsBrace(full[i]) then i else NextBrace(full, i + 1)
  }

  /** The leftmost match at or after `i`. */
  function NextMatch(full: string, i: nat): (m: Option<Span>)
    requires i <= |full|
    ensures m.Some? ==> i <= m.value.start && m.value.start + 3 <= m.value.end <= |full|
    decreases |full| - i
  {
    if i == |full| then None
    else if full[i] != '{' then NextMatch(full, i + 1)
    else
      var j := NextBrace(full, i + 1);
      if j < |full| && full[j] == '}' && j > i + 1 then Some(Span(i, j + 1)) else NextMatch(full, i + 1)
  }

  /** Every match from `i` on: each search starts where the last match ended. */
  function MatchesFrom(full: string, i: nat): (ms: seq<Span>)
    requires i <= |full|
    ensures AllInText(full, ms)
    decreases |full| - i
  {
    var m := NextMatch(full, i);
    if m.None? then [] else [m.value] + MatchesFrom(full, m.value.end)
  }

  predicate InText(full: string, m: Span) {
    m.start + 2 <= m.end <= |full|
  }

  predicate AllInText(full: string, ms: seq<Span>) {
    forall i :: 0 <= i < |ms| ==> InText(full, ms[i])
  }

  /** The optional prefix is given up when nothing else would be left for the name. */
  function ReadBody(body: string): (Kind, string) {
    if |body| >= 2 && body[0] == '#' then (Section, Trim(body[1..]))
    else if |body| >= 2 && body[0] == '^' then (Inverted, Trim(body[1..]))
    else if |body| >= 2 && body[0] == '/' then (Closing, Trim(body[1..]))
    else (Var, Trim(body))
  }

  // ------------------------------------------------------------------- runs

  function Join(runs: seq<string>): string {
    if runs == [] then "" else Join(runs[..|runs| - 1]) + runs[|runs| - 1]
  }

  function Positions(runs: seq<string>): (ps: seq<Span>)
    ensures |ps| == |runs|
  {
    if runs == [] then []
    else
      var start := |Join(runs[..|runs| - 1])|;
      Positions(runs[..|runs| - 1]) + [Span(start, start + |runs[|runs| - 1]|)]
  }

  predicate Overlaps(r: Span, m: Span) {
    !(r.end <= m.start || r.start >= m.end)
  }

  function RunsSpanning(ps: seq<Span>, m: Span): (ids: seq<nat>) {
    if ps == [] then []
    else RunsSpanning(ps[..|ps| - 1], m) + (if Overlaps(ps[|ps| - 1], m) then [|ps| - 1] else [])
  }

  // --------------------------------------------------- what a scan computes

  function ReadMatch(full: string, m: Span): (Kind, string)
    requires InText(full, m)
  {
    ReadBody(full[m.start + 1..m.end - 1])
  }

  predicate Accepted(full: string, ps: seq<Span>, m: Span)
    requires InText(full, m)
  {
    var ident := ReadMatch(full, m).1;
    |RunsSpanning(ps, m)| <= 1 && IsValidIdent(ident) && !IsReservedIdent(ident)
  }

  function TokenAt(full: string, ps: seq<Span>, m: Span): Token
    requires InText(full, m)
  {
    var (kind, ident) := ReadMatch(full, m);
    var ids := RunsSpanning(ps, m);
    Token(kind, ident, m.start, m.end, if |ids| > 0 then ids[0] else 0)
  }

  function SpanOf(t: Token): Span {
    Span(t.start, t.end)
  }

  function Tokens(full: string, ps: seq<Span>, ms: seq<Span>): (ts: seq<Token>)
    requires AllInText(full, ms)
  {
    if ms == [] then []
    else
      var before, m := Tokens(full, ps, ms[..|ms| - 1]), ms[|ms| - 1];
      if Accepted(full, ps, m) then before + [TokenAt(full, ps, m)] else before
  }

  /** The open sections after a token; a closing token pops whatever is on top. */
  function NextOpen(open: seq<string>, t: Token): seq<string> {
    if t.kind == Section || t.kind == Inverted then open + [t.ident]
    else if t.kind == Closing && open != [] then open[..|open| - 1]
    else open
  }

  function Open(ts: seq<Token>): seq<string> {
    if ts == [] then [] else NextOpen(Open(ts[..|ts| - 1]), ts[|ts| - 1])
  }

  function SectionErrors(open: seq<string>, t: Token): seq<ParseError> {
    if t.kind == Section || t.kind == Inverted then
      if |open| + 1 > MAX_SECTION_DEPTH + 1 then [NestedSectionTooDeep(t.ident, |open|)] else []
    else if t.kind == Closing && (open == [] || open[|open| - 1] != t.ident) then
      [UnmatchedClosing(t.ident, Some(t.start))]
    else []
  }

  function MatchErrors(full: string, ps: seq<Span>, open: seq<string>, m: Span): seq<ParseError>
    requires InText(full, m)
  {
    var ids, ident := RunsSpanning(ps, m), ReadMatch(full, m).1;
    if |ids| > 1 then [SplitAcrossRuns(ids, full[m.start..m.end])]
    else if !IsValidIdent(ident) then [MalformedToken(full[m.start..m.end], m.start)]
    else if IsReservedIdent(ident) then [ReservedIdent(ident, m.start)]
    else SectionErrors(open, TokenAt(full, ps, m))
  }

  function Errors(full: string, ps: seq<Span>, ms: seq<Span>): seq<ParseError>
    requires AllInText(full, ms)
  {
    if ms == [] then []
    else
      var before := ms[..|ms| - 1];
      Errors(full, ps, before) + MatchErrors(full, ps, Open(Tokens(full, ps, before)), ms[|ms| - 1])
  }

  function Unclosed(open: seq<string>): seq<ParseError> {
    seq(|open|, i requires 0 <= i < |open| => UnmatchedClosing(open[i], None))
  }

  // ---------------------------------------------------------- the procedures

  method RunPositions(runs: seq<string>) returns (ps: seq<Span>)
    ensures ps == Positions(runs)
  {
    var cursor := 0;
    ps := [];
    for i := 0 to |runs|
      invariant ps == Positions(runs[..i]) && cursor == |Join(runs[..i])|
    {
      assert runs[..i + 1][..i] == runs[..i];
      var start := cursor;
      var end := start + |runs[i]|;
      cursor := end;
      ps := ps + [Span(start, end)];
    }
    assert runs[..|runs|] == runs;
  }

  /** The body of the scanning loop for one match. */
  method ScanMatch(full: string, positions: seq<Span>, m: Span, openSections: seq<string>)
      returns (token: Option<Token>, open: seq<string>, errors: seq<ParseError>)
    requires InText(full, m)
    ensures token == if Accepted(full, positions, m) then Some(TokenAt(full, positions, m)) else None
    ensures open == if token.Some? then NextOpen(openSections, token.value) else openSections
    ensures errors == MatchErrors(full, positions, openSections, m)
  {
    token, open := None, openSections;
    var raw := full[m.start..m.end];
    var (kind, ident) := ReadBody(full[m.start + 1..m.end - 1]);
    var spanningRunIds := RunsSpanning(positions, m);
    if |spanningRunIds| > 1 {
      return token, open, [SplitAcrossRuns(spanningRunIds, raw)];
    }
    if !IsValidIdent(ident) {
      return token, open, [MalformedToken(raw, m.start)];
    }
    if IsReservedIdent(ident) {
      return token, open, [ReservedIdent(ident, m.start)];
    }
    errors := [];
    if kind == Section || kind == Inverted {
      open := open + [ident];
      if |open| > MAX_SECTION_DEPTH + 1 {
        errors := [NestedSectionTooDeep(ident, |open| - 1)];
      }
    } else if kind == Closing {
      var top: Option<string> := None;
      if open != [] {
        top := Some(open[|open| - 1]);
        open := open[..|open| - 1];
      }
      if top != Some(ident) {
        errors := [UnmatchedClosing(ident, Some(m.start))];
      }
    }
    token := Some(Token(kind, ident, m.start, m.end, if |spanningRunIds| > 0 then spanningRunIds[0] else 0));
  }

  method ReportUnclosed(openSections: seq<string>) returns (errors: seq<ParseError>)
    ensures errors == Unclosed(openSections)
  {
    errors := [];
    for i := 0 to |openSections|
      invariant errors == Unclosed(openSections)[..i]
    {
      errors := errors + [UnmatchedClosing(openSections[i], None)];
    }
  }

  method ScanTokens(runs: seq<string>) returns (tokens: seq<Token>, errors: seq<ParseError>)
    ensures tokens == Tokens(Join(runs), Positions(runs), MatchesFrom(Join(runs), 0))
    ensures errors == Errors(Join(runs), Positions(runs), MatchesFrom(Join(runs), 0)) + Unclosed(Open(tokens))
  {
    var full := Join(runs);
    var positions := RunPositions(runs);
    var openSections: seq<string> := [];
    var lastIndex := 0;
    ghost var matches: seq<Span> := [];
    tokens, errors := [], [];
    while NextMatch(full, lastIndex).Some?
      invariant lastIndex <= |full| && AllInText(full, matches)
      invariant MatchesFrom(full, 0) == matches + MatchesFrom(full, lastIndex)
      invariant tokens == Tokens(full, positions, matches) && openSections == Open(tokens)
      invariant errors == Errors(full, positions, matches)
      decreases |full| - lastIndex
    {
      var m := NextMatch(full, lastIndex).value;
      ScanOneMore(full, positions, matches, m);
      MatchMovesOver(full, matches, lastIndex);
      var token, open, found := ScanMatch(full, positions, m, openSections);
      errors := errors + found;
      if token.Some? { tokens := tokens + [token.value]; }
      openSections := open;
      lastIndex := m.end;
      matches := matches + [m];
    }
    assert matches + [] == matches;
    var unclosed := ReportUnclosed(openSections);
    errors := errors + unclosed;
  }

  lemma MatchMovesOver(full: string, ms: seq<Span>, i: nat)
    requires i <= |full| && NextMatch(full, i).Some?
    ensures var m := NextMatch(full, i).value;
            ms + MatchesFrom(full, i) == (ms + [m]) + MatchesFrom(full, m.end)
  {
  }

  /** What the loop holds after one more match. */
  lemma ScanOneMore(full: string, ps: seq<Span>, ms: seq<Span>, m: Span)
    requires AllInText(full, ms) && InText(full, m)
    ensures AllInText(full, ms + [m])
    ensures var ts := Tokens(full, ps, ms);
            && Tokens(full, ps, ms + [m]) == (if Accepted(full, ps, m) then ts + [TokenAt(full, ps, m)] else ts)
            && Open(Tokens(full, ps, ms + [m])) == (if Accepted(full, ps, m) then NextOpen(Open(ts), TokenAt(full, ps, m)) else Open(ts))
            && Errors(full, ps, ms + [m]) == Errors(full, ps, ms) + MatchErrors(full, ps, Open(ts), m)
  {
    assert (ms + [m])[..|ms + [m]| - 1] == ms;
    OpenOneMore(Tokens(full, ps, ms), TokenAt(full, ps, m));
  }

  lemma OpenOneMore(ts: seq<Token>, t: Token)
    ensures Open(ts + [t]) == NextOpen(Open(ts), t)
  {
    assert (ts + [t])[..|ts + [t]| - 1] == ts;
  }

  // --------------------------------------------- matches are all occurrences

  /** One occurrence of the pattern: braces around a nonempty brace-free body. */
  ghost predicate IsMatch(full: string, m: Span) {
    && m.start + 3 <= m.end <= |full| && full[m.start] == '{' && full[m.end - 1] == '}'
    && forall k :: m.start < k < m.end - 1 ==> !IsBrace(full[k])
  }

  ghost predicate Disjoint(ms: seq<Span>) {
    forall i, j :: 0 <= i < j < |ms| ==> ms[i].end <= ms[j].start
  }

  lemma {:induction false} NextMatchIsLeftmost(full: string, i: nat)
    requires i <= |full|
    ensures NextMatch(full, i).None? ==> forall m :: IsMatch(full, m) ==> m.start < i
    ensures NextMatch(full, i).Some? ==>
      IsMatch(full, NextMatch(full, i).value)
      && forall m :: IsMatch(full, m) ==> m.start < i || m.start >= NextMatch(full, i).value.start
    decreases |full| - i
  {
    if i < |full| {
      NextMatchIsLeftmost(full, i + 1);
      if full[i] == '{' {
        var j := NextBrace(full, i + 1);
        forall m | IsMatch(full, m) && m.start == i ensures m.end == j + 1 && j > i + 1 && full[j] == '}' {
          MatchEndsAtNextBrace(full, m);
        }
      }
    }
  }

  lemma MatchEndsAtNextBrace(full: string, m: Span)
    requires IsMatch(full, m)
    ensures NextBrace(full, m.start + 1) == m.end - 1
  {
    var j := NextBrace(full, m.start + 1);
    assert IsBrace(full[m.end - 1]);
    assert m.end - 1 >= j;
    assert IsBrace(full[j]);
  }

  lemma MatchesDisjoint(full: string, m: Span, n: Span)
    requires IsMatch(full, m) && IsMatch(full, n) && m.start <= n.start && m != n
    ensures m.end <= n.start
  {
    MatchEndsAtNextBrace(full, m);
    MatchEndsAtNextBrace(full, n);
    assert full[n.start] == '{' && full[m.end - 1] == '}';
  }

  ghost predicate FindsAll(full: string, ms: seq<Span>, i: nat) {
    Disjoint(ms) && forall m :: m in ms <==> IsMatch(full, m) && i <= m.start
  }

  lemma FirstAndTheRest(full: string, i: nat, first: Span, rest: seq<Span>)
    requires IsMatch(full, first) && i <= first.start && FindsAll(full, rest, first.end)
    requires forall m :: IsMatch(full, m) ==> m.start < i || m.start >= first.start
    ensures FindsAll(full, [first] + rest, i)
  {
    var ms := [first] + rest;
    forall k | 0 <= k < |rest| ensures first.end <= rest[k].start {
      assert rest[k] in rest;
    }
    forall m ensures m in ms <==> IsMatch(full, m) && i <= m.start {
      assert m in ms <==> m == first || m in rest;
      if IsMatch(full, m) && i <= m.start && m != first { MatchesDisjoint(full, first, m); }
    }
  }

  /** The search finds every occurrence, from left to right and without overlaps. */
  lemma {:induction false} MatchesAreAllOccurrences(full: string, i: nat)
    requires i <= |full|
    ensures var ms := MatchesFrom(full, i);
            Disjoint(ms) && forall m :: m in ms <==> IsMatch(full, m) && i <= m.start
    decreases |full| - i
  {
    NextMatchIsLeftmost(full, i);
    var next := NextMatch(full, i);
    if next.Some? {
      MatchesAreAllOccurrences(full, next.value.end);
      FirstAndTheRest(full, i, next.value, MatchesFrom(full, next.value.end));
    }
    assert FindsAll(full, MatchesFrom(full, i), i);
  }

  // ------------------------------------------------ spans and runs of tokens

  ghost predicate Inside(ps: seq<Span>, m: Span, k: int) {
    0 <= k < |ps| && ps[k].start <= m.start && m.end <= ps[k].end
  }

  /** Spans laid end to end from 0 to `n`, empty ones allowed. */
  ghost predicate Tiling(ps: seq<Span>, n: nat) {
    if ps == [] then n == 0
    else
      var last := ps[|ps| - 1];
      last.start <= last.end == n && Tiling(ps[..|ps| - 1], last.start)
  }

  lemma {:induction false} TilingOrdered(ps: seq<Span>, n: nat)
    requires Tiling(ps, n)
    ensures forall j, k :: 0 <= j < k < |ps| ==> ps[j].end <= ps[k].start
    ensures forall k :: 0 <= k < |ps| ==> ps[k].start <= ps[k].end <= n
  {
    if ps != [] {
      var rest, last := ps[..|ps| - 1], ps[|ps| - 1];
      TilingOrdered(rest, last.start);
      assert forall k :: 0 <= k < |rest| ==> rest[k] == ps[k];
    }
  }

  lemma RunStaysAt(full: string, more: string, p: Span, run: string)
    requires RunIsAt(full, p, run)
    ensures RunIsAt(full + more, p, run)
  {
    assert (full + more)[p.start..p.end] == full[p.start..p.end];
  }

  lemma {:induction false} PositionsAreTiling(runs: seq<string>)
    ensures Tiling(Positions(runs), |Join(runs)|)
  {
    if runs != [] {
      PositionsAreTiling(runs[..|runs| - 1]);
      assert Positions(runs)[..|runs| - 1] == Positions(runs[..|runs| - 1]);
    }
  }

  lemma LastRunIsAt(before: string, run: string)
    ensures RunIsAt(before + run, Span(|before|, |before| + |run|), run)
  {
  }

  lemma {:induction false} RunIsPlaced(runs: seq<string>, k: int)
    requires 0 <= k < |runs|
    ensures RunIsAt(Join(runs), Positions(runs)[k], runs[k])
  {
    var n := |runs| - 1;
    if k < n {
      RunIsPlaced(runs[..n], k);
      RunStaysAt(Join(runs[..n]), runs[n], Positions(runs[..n])[k], runs[k]);
    } else {
      LastRunIsAt(Join(runs[..n]), runs[n]);
    }
  }

  lemma PositionsTile(runs: seq<string>)
    ensures Tiling(Positions(runs), |Join(runs)|)
    ensures forall k :: 0 <= k < |runs| ==> RunIsAt(Join(runs), Positions(runs)[k], runs[k])
  {
    PositionsAreTiling(runs);
    forall k | 0 <= k < |runs| ensures RunIsAt(Join(runs), Positions(runs)[k], runs[k]) {
      RunIsPlaced(runs, k);
    }
  }

  ghost predicate RunIsAt(full: string, p: Span, run: string) {
    p.start <= p.end <= |full| && full[p.start..p.end] == run
  }

  ghost predicate Increasing(ids: seq<nat>) {
    forall i, j :: 0 <= i < j < |ids| ==> ids[i] < ids[j]
  }

  lemma {:induction false} IncreasingSpread(ids: seq<nat>)
    requires Increasing(ids) && ids != []
    ensures ids[0] in ids && ids[|ids| - 1] in ids && |ids| <= ids[|ids| - 1] - ids[0] + 1
  {
    if |ids| > 1 {
      IncreasingSpread(ids[..|ids| - 1]);
    }
  }

  lemma {:induction false} SpanningIs(ps: seq<Span>, m: Span)
    ensures forall k :: k in RunsSpanning(ps, m) <==> 0 <= k < |ps| && Overlaps(ps[k], m)
    ensures Increasing(RunsSpanning(ps, m))
  {
    if ps != [] {
      SpanningIs(ps[..|ps| - 1], m);
      var before := RunsSpanning(ps[..|ps| - 1], m);
      assert forall i :: 0 <= i < |before| ==> before[i] in before;
    }
  }

  /** The runs a nonempty span overlaps number at most one exactly when one run holds the whole
      span, and then that run is the one named; empty runs change nothing. */
  lemma OneRunIffInside(ps: seq<Span>, n: nat, m: Span)
    requires Tiling(ps, n) && m.start < m.end <= n
    ensures |RunsSpanning(ps, m)| <= 1 <==> exists k :: Inside(ps, m, k)
    ensures |RunsSpanning(ps, m)| <= 1 ==> |RunsSpanning(ps, m)| == 1 && Inside(ps, m, RunsSpanning(ps, m)[0])
  {
    var ids := RunsSpanning(ps, m);
    SpanningIs(ps, m);
    TilingOrdered(ps, n);
    var first := Holding(ps, n, m.start);
    var last := Holding(ps, n, m.end - 1);
    assert first in ids && last in ids;
    if |ids| <= 1 {
      assert ids == [first] && first == last;
      assert Inside(ps, m, first);
    }
    if k :| Inside(ps, m, k) {
      OnlyOverlap(ps, n, m, k);
      if ids != [] { IncreasingSpread(ids); }
    }
  }

  lemma OnlyOverlap(ps: seq<Span>, n: nat, m: Span, k: int)
    requires Tiling(ps, n) && m.start < m.end && Inside(ps, m, k)
    ensures forall j :: 0 <= j < |ps| && Overlaps(ps[j], m) ==> j == k
  {
    TilingOrdered(ps, n);
  }

  /** The run a position of the text lies in. */
  lemma {:induction false} Holding(ps: seq<Span>, n: nat, i: nat) returns (k: nat)
    requires Tiling(ps, n) && i < n
    ensures k < |ps| && ps[k].start <= i < ps[k].end
  {
    var last := ps[|ps| - 1];
    if last.start <= i {
      k := |ps| - 1;
    } else {
      var rest := ps[..|ps| - 1];
      k := Holding(rest, last.start, i);
    }
  }

  ghost predicate Emitted(full: string, ps: seq<Span>, m: Span) {
    && IsMatch(full, m) && (exists k :: Inside(ps, m, k))
    && IsValidIdent(ReadMatch(full, m).1) && !IsReservedIdent(ReadMatch(full, m).1)
  }

  ghost predicate GoodToken(full: string, ps: seq<Span>, t: Token) {
    && Emitted(full, ps, SpanOf(t)) && Inside(ps, SpanOf(t), t.runId)
    && (t.kind, t.ident) == ReadMatch(full, SpanOf(t))
  }

  ghost predicate TokensDisjoint(ts: seq<Token>) {
    forall i, j :: 0 <= i < j < |ts| ==> ts[i].start < ts[i].end <= ts[j].start
  }

  lemma {:induction false} TokensAreGood(full: string, ps: seq<Span>, ms: seq<Span>)
    requires Tiling(ps, |full|) && AllInText(full, ms) && forall i :: 0 <= i < |ms| ==> IsMatch(full, ms[i])
    ensures forall t :: t in Tokens(full, ps, ms) ==> GoodToken(full, ps, t) && SpanOf(t) in ms
  {
    if ms != [] {
      TokensAreGood(full, ps, ms[..|ms| - 1]);
      OneRunIffInside(ps, |full|, ms[|ms| - 1]);
    }
  }

  lemma {:induction false} TokensInOrder(full: string, ps: seq<Span>, ms: seq<Span>)
    requires Tiling(ps, |full|) && AllInText(full, ms) && Disjoint(ms)
    requires forall i :: 0 <= i < |ms| ==> IsMatch(full, ms[i])
    ensures TokensDisjoint(Tokens(full, ps, ms))
  {
    if ms != [] {
      var rest, m := ms[..|ms| - 1], ms[|ms| - 1];
      var before := Tokens(full, ps, rest);
      TokensInOrder(full, ps, rest);
      TokensAreGood(full, ps, rest);
      forall i | 0 <= i < |before| ensures before[i].start < before[i].end <= m.start {
        assert before[i] in before;
        assert GoodToken(full, ps, before[i]);
        var k :| 0 <= k < |rest| && rest[k] == SpanOf(before[i]);
        assert ms[k].end <= ms[|ms| - 1].start;
      }
    }
  }

  ghost predicate Has(ts: seq<Token>, m: Span) {
    exists t :: t in ts && SpanOf(t) == m
  }

  lemma TokensGrow(full: string, ps: seq<Span>, ms: seq<Span>, m: Span)
    requires ms != [] && AllInText(full, ms)
    ensures Has(Tokens(full, ps, ms[..|ms| - 1]), m) ==> Has(Tokens(full, ps, ms), m)
    ensures Accepted(full, ps, ms[|ms| - 1]) ==> Has(Tokens(full, ps, ms), ms[|ms| - 1])
  {
    var last, before, ts := ms[|ms| - 1], Tokens(full, ps, ms[..|ms| - 1]), Tokens(full, ps, ms);
    if Has(before, m) {
      var t :| t in before && SpanOf(t) == m;
      assert t in ts;
    }
    if Accepted(full, ps, last) {
      assert TokenAt(full, ps, last) in ts && SpanOf(TokenAt(full, ps, last)) == last;
    }
  }

  lemma {:induction false} EmittedIsToken(full: string, ps: seq<Span>, ms: seq<Span>, m: Span)
    requires Tiling(ps, |full|) && AllInText(full, ms) && m in ms && IsMatch(full, m) && Emitted(full, ps, m)
    ensures Has(Tokens(full, ps, ms), m)
  {
    TokensGrow(full, ps, ms, m);
    if m == ms[|ms| - 1] {
      OneRunIffInside(ps, |full|, m);
    } else {
      EmittedIsToken(full, ps, ms[..|ms| - 1], m);
    }
  }

  lemma EmittedAreTokens(full: string, ps: seq<Span>, ms: seq<Span>)
    requires Tiling(ps, |full|) && AllInText(full, ms) && forall i :: 0 <= i < |ms| ==> IsMatch(full, ms[i])
    ensures forall m :: m in ms && Emitted(full, ps, m) ==> exists t :: t in Tokens(full, ps, ms) && SpanOf(t) == m
  {
    forall m | m in ms && Emitted(full, ps, m) ensures exists t :: t in Tokens(full, ps, ms) && SpanOf(t) == m {
      EmittedIsToken(full, ps, ms, m);
      assert Has(Tokens(full, ps, ms), m);
    }
  }

  /** Tokens come with increasing, disjoint spans, each inside the run it names, and they are
      exactly the occurrences of the pattern that fit one run and hold an allowed name. */
  lemma TokensAreTheGoodMatches(runs: seq<string>)
    ensures var full, ps := Join(runs), Positions(runs);
            var ts := Tokens(full, ps, MatchesFrom(full, 0));
            && TokensDisjoint(ts) && (forall t :: t in ts ==> GoodToken(full, ps, t))
            && (forall m :: Emitted(full, ps, m) ==> exists t :: t in ts && SpanOf(t) == m)
  {
    PositionsTile(runs);
    MatchesAreAllOccurrences(Join(runs), 0);
    TokensAreGood(Join(runs), Positions(runs), MatchesFrom(Join(runs), 0));
    TokensInOrder(Join(runs), Positions(runs), MatchesFrom(Join(runs), 0));
    EmittedAreTokens(Join(runs), Positions(runs), MatchesFrom(Join(runs), 0));
  }
}
