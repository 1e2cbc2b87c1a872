/** What a scan reports, stated on the text: every occurrence of the pattern is a token or is
    rejected for exactly one reason, and the section errors are those of the declared nesting. */
module TokenErrors {
  import opened Prelude
  import opened TokenScanner
  import opened TokenSections

  // --------------------------------------------------------------- the text

  predicate Letter(c: char) {
    'A' <= c <= 'Z' || 'a' <= c <= 'z' || c == '_'
  }

  predicate ValidName(s: string) {
    s != "" && Letter(s[0]) && forall i :: 0 <= i < |s| ==> Letter(s[i]) || '0' <= s[i] <= '9'
  }

  predicate ReservedName(s: string) {
    || s == "__proto__" || s == "constructor" || s == "prototype" || s == "toString" || s == "valueOf"
    || s == "hasOwnProperty" || s == "tenant_id" || s == "document_id" || s == "template_version_id"
    || s == "revision_id" || s == "session_id"
  }

  /** The white space and line ends of ECMAScript, by code. */
  lemma SpacesAre(c: char)
    ensures IsSpace(c) <==>
      var n := c as int;
      || 9 <= n <= 13 || n == 32 || n == 160 || n == 5760 || 8192 <= n <= 8202 || n == 8232 || n == 8233
      || n == 8239 || n == 8287 || n == 12288 || n == 65279
  {
  }

  /** t is s without the spaces around it. */
  ghost predicate Trimmed(s: string, t: string) {
    exists i, j :: TrimmedAt(s, t, i, j)
  }

  ghost predicate TrimmedAt(s: string, t: string, i: int, j: int) {
    && 0 <= i <= j <= |s| && t == s[i..j]
    && (forall k :: 0 <= k < i ==> IsSpace(s[k])) && (forall k :: j <= k < |s| ==> IsSpace(s[k]))
    && (i < j ==> !IsSpace(s[i]) && !IsSpace(s[j - 1]))
  }

  /** The body of an occurrence names a section, an inverted section, its end, or a variable; a
      lone prefix is a name. */
  ghost predicate Reads(full: string, m: Span, kind: Kind, ident: string)
    requires InText(full, m)
  {
    var body := full[m.start + 1..m.end - 1];
    if |body| >= 2 && body[0] == '#' then kind == Section && Trimmed(body[1..], ident)
    else if |body| >= 2 && body[0] == '^' then kind == Inverted && Trimmed(body[1..], ident)
    else if |body| >= 2 && body[0] == '/' then kind == Closing && Trimmed(body[1..], ident)
    else kind == Var && Trimmed(body, ident)
  }

  lemma {:induction false} TrimTrims(s: string)
    ensures Trimmed(s, Trim(s))
    decreases |s|
  {
    if s == [] {
      assert TrimmedAt(s, [], 0, 0);
    } else if IsSpace(s[0]) {
      TrimTrims(s[1..]);
      var i, j :| TrimmedAt(s[1..], Trim(s[1..]), i, j);
      assert s[1..][i..j] == s[i + 1..j + 1];
      assert TrimmedAt(s, Trim(s), i + 1, j + 1);
    } else if IsSpace(s[|s| - 1]) {
      TrimTrims(s[..|s| - 1]);
      var i, j :| TrimmedAt(s[..|s| - 1], Trim(s[..|s| - 1]), i, j);
      assert s[..|s| - 1][i..j] == s[i..j];
      assert TrimmedAt(s, Trim(s), i, j);
    } else {
      assert TrimmedAt(s, s, 0, |s|);
    }
  }

  lemma TrimmedUnique(s: string, t: string, u: string)
    requires Trimmed(s, t) && Trimmed(s, u)
    ensures t == u
  {
    var i, j :| TrimmedAt(s, t, i, j);
    var k, n :| TrimmedAt(s, u, k, n);
    if i < j && k < n {
      assert i == k && j == n;
    }
  }

  lemma ReadsIff(full: string, m: Span, kind: Kind, ident: string)
    requires InText(full, m)
    ensures Reads(full, m, kind, ident) <==> ReadMatch(full, m) == (kind, ident)
  {
    var body := full[m.start + 1..m.end - 1];
    var inner := if |body| >= 2 && (body[0] == '#' || body[0] == '^' || body[0] == '/') then body[1..] else body;
    TrimTrims(inner);
    if Trimmed(inner, ident) { TrimmedUnique(inner, ident, Trim(inner)); }
  }

  lemma NamesAre(s: string)
    ensures IsValidIdent(s) <==> ValidName(s)
    ensures IsReservedIdent(s) <==> ReservedName(s)
  {
    ReservedAre(s);
  }

  lemma ReservedAre(s: string)
    ensures Among(s, RESERVED_IDENTS) <==> ReservedName(s)
  {
    AmongIff(s, RESERVED_IDENTS);
  }

  lemma {:induction false} AmongIff(s: string, words: seq<string>)
    ensures Among(s, words) <==> s in words
  {
    if words != [] { AmongIff(s, words[1..]); }
  }

  /** The runs with text inside the span, or empty ones within it, in order. */
  ghost predicate RunsTouching(ps: seq<Span>, m: Span, ids: seq<nat>) {
    && (forall i, j :: 0 <= i < j < |ids| ==> ids[i] < ids[j])
    && forall k :: k in ids <==> 0 <= k < |ps| && ps[k].start < m.end && m.start < ps[k].end
  }

  lemma {:induction false} IncreasingUnique(a: seq<nat>, b: seq<nat>)
    requires Increasing(a) && Increasing(b) && forall k :: k in a <==> k in b
    ensures a == b
  {
    assert a != [] ==> a[|a| - 1] in b;
    assert b != [] ==> b[|b| - 1] in a;
    if a != [] {
      var n, k := |a| - 1, |b| - 1;
      assert a[n] == b[k];
      forall x ensures x in a[..n] <==> x in b[..k] {
        assert x in a[..n] <==> x in a && x != a[n];
        assert x in b[..k] <==> x in b && x != b[k];
      }
      IncreasingUnique(a[..n], b[..k]);
      assert a == a[..n] + [a[n]] && b == b[..k] + [b[k]];
    }
  }

  lemma TouchingIff(ps: seq<Span>, m: Span, ids: seq<nat>)
    ensures RunsTouching(ps, m, ids) <==> ids == RunsSpanning(ps, m)
  {
    SpanningIs(ps, m);
    if RunsTouching(ps, m, ids) { IncreasingUnique(ids, RunsSpanning(ps, m)); }
  }

  // ------------------------------------------------------------- rejections

  /** Why an occurrence is no token: it is split over runs, its name is malformed, or reserved. */
  ghost predicate RejectedAs(full: string, ps: seq<Span>, m: Span, e: ParseError)
    requires InText(full, m)
  {
    match e
    case SplitAcrossRuns(ids, raw) =>
      raw == full[m.start..m.end] && (forall k :: !Inside(ps, m, k)) && RunsTouching(ps, m, ids)
    case MalformedToken(raw, offset) =>
      && raw == full[m.start..m.end] && offset == m.start && (exists k :: Inside(ps, m, k))
      && exists kind, ident :: Reads(full, m, kind, ident) && !ValidName(ident)
    case ReservedIdent(ident, offset) =>
      && offset == m.start && (exists k :: Inside(ps, m, k))
      && (exists kind :: Reads(full, m, kind, ident)) && ValidName(ident) && ReservedName(ident)
    case _ => false
  }

  predicate Rejection(e: ParseError) {
    e.SplitAcrossRuns? || e.MalformedToken? || e.ReservedIdent?
  }

  lemma MatchRejection(full: string, ps: seq<Span>, open: seq<string>, m: Span, e: ParseError)
    requires Tiling(ps, |full|) && IsMatch(full, m) && Rejection(e)
    ensures e in MatchErrors(full, ps, open, m) <==> RejectedAs(full, ps, m, e)
  {
    var (kind, ident) := ReadMatch(full, m);
    OneRunIffInside(ps, |full|, m);
    ReadsIff(full, m, kind, ident);
    NamesAre(ident);
    match e
    case SplitAcrossRuns(runIds, raw) => TouchingIff(ps, m, runIds);
    case MalformedToken(raw, offset) =>
      forall k, i | Reads(full, m, k, i) ensures i == ident { ReadsIff(full, m, k, i); }
    case ReservedIdent(i, offset) =>
      forall k | Reads(full, m, k, i) ensures i == ident { ReadsIff(full, m, k, i); }
  }

  ghost predicate ReportedAt(full: string, ps: seq<Span>, ms: seq<Span>, i: int, e: ParseError)
    requires AllInText(full, ms)
  {
    0 <= i < |ms| && e in MatchErrors(full, ps, Open(Tokens(full, ps, ms[..i])), ms[i])
  }

  lemma ReportedBefore(full: string, ps: seq<Span>, ms: seq<Span>, i: int, e: ParseError)
    requires AllInText(full, ms) && 0 <= i < |ms| - 1
    ensures ReportedAt(full, ps, ms[..|ms| - 1], i, e) <==> ReportedAt(full, ps, ms, i, e)
  {
    assert ms[..|ms| - 1][..i] == ms[..i];
  }

  lemma {:induction false} SourceOfError(full: string, ps: seq<Span>, ms: seq<Span>, e: ParseError) returns (i: nat)
    requires AllInText(full, ms) && e in Errors(full, ps, ms)
    ensures ReportedAt(full, ps, ms, i, e)
  {
    var n := |ms| - 1;
    if e in Errors(full, ps, ms[..n]) {
      i := SourceOfError(full, ps, ms[..n], e);
      ReportedBefore(full, ps, ms, i, e);
    } else {
      i := n;
    }
  }

  lemma {:induction false} ReportedIsError(full: string, ps: seq<Span>, ms: seq<Span>, i: int, e: ParseError)
    requires AllInText(full, ms) && ReportedAt(full, ps, ms, i, e)
    ensures e in Errors(full, ps, ms)
  {
    var n := |ms| - 1;
    if i < n {
      ReportedBefore(full, ps, ms, i, e);
      ReportedIsError(full, ps, ms[..n], i, e);
    }
  }

  lemma RejectionHasSource(full: string, ps: seq<Span>, ms: seq<Span>, e: ParseError) returns (m: Span)
    requires Tiling(ps, |full|) && AllInText(full, ms) && (forall i :: 0 <= i < |ms| ==> IsMatch(full, ms[i]))
    requires Rejection(e) && e in Errors(full, ps, ms)
    ensures IsMatch(full, m) && RejectedAs(full, ps, m, e)
  {
    var i := SourceOfError(full, ps, ms, e);
    m := ms[i];
    MatchRejection(full, ps, Open(Tokens(full, ps, ms[..i])), m, e);
  }

  lemma SourceIsReported(full: string, ps: seq<Span>, ms: seq<Span>, e: ParseError, m: Span)
    requires Tiling(ps, |full|) && AllInText(full, ms) && m in ms && IsMatch(full, m)
    requires Rejection(e) && RejectedAs(full, ps, m, e)
    ensures e in Errors(full, ps, ms)
  {
    var i :| 0 <= i < |ms| && ms[i] == m;
    MatchRejection(full, ps, Open(Tokens(full, ps, ms[..i])), m, e);
    ReportedIsError(full, ps, ms, i, e);
  }

  ghost predicate HasCause(full: string, ps: seq<Span>, e: ParseError) {
    exists m :: IsMatch(full, m) && RejectedAs(full, ps, m, e)
  }

  ghost predicate AllMatches(full: string, ms: seq<Span>) {
    forall m :: m in ms <==> IsMatch(full, m)
  }

  lemma ScanShape(runs: seq<string>)
    ensures Tiling(Positions(runs), |Join(runs)|) && AllMatches(Join(runs), MatchesFrom(Join(runs), 0))
  {
    PositionsTile(runs);
    MatchesAreAllOccurrences(Join(runs), 0);
  }

  lemma ErrorIffCause(full: string, ps: seq<Span>, ms: seq<Span>, e: ParseError)
    requires Tiling(ps, |full|) && AllInText(full, ms) && AllMatches(full, ms) && Rejection(e)
    ensures e in Errors(full, ps, ms) <==> HasCause(full, ps, e)
  {
    forall i | 0 <= i < |ms| ensures IsMatch(full, ms[i]) {
      assert ms[i] in ms;
    }
    if e in Errors(full, ps, ms) {
      var m := RejectionHasSource(full, ps, ms, e);
    }
    if HasCause(full, ps, e) {
      var m :| IsMatch(full, m) && RejectedAs(full, ps, m, e);
      SourceIsReported(full, ps, ms, e, m);
    }
  }

  /** A rejection is reported exactly when some occurrence is rejected for it. */
  lemma RejectionIff(runs: seq<string>, e: ParseError)
    requires Rejection(e)
    ensures e in ScanErrors(runs) <==> HasCause(Join(runs), Positions(runs), e)
  {
    ScanShape(runs);
    LateAreUnmatched(Open(ScannedTokens(runs)), e);
    ErrorIffCause(Join(runs), Positions(runs), MatchesFrom(Join(runs), 0), e);
  }

  lemma LateAreUnmatched(open: seq<string>, e: ParseError)
    ensures e in Unclosed(open) <==> e.UnmatchedClosing? && e.location == None && e.ident in open
  {
    if e.UnmatchedClosing? && e.location == None && e.ident in open {
      var i :| 0 <= i < |open| && open[i] == e.ident;
      assert Unclosed(open)[i] == e;
    }
  }

  ghost predicate IsToken(full: string, ps: seq<Span>, t: Token) {
    && IsMatch(full, Span(t.start, t.end)) && Inside(ps, Span(t.start, t.end), t.runId)
    && Reads(full, Span(t.start, t.end), t.kind, t.ident) && ValidName(t.ident) && !ReservedName(t.ident)
  }

  lemma GoodIsToken(full: string, ps: seq<Span>, t: Token)
    ensures GoodToken(full, ps, t) <==> IsToken(full, ps, t)
  {
    if IsMatch(full, SpanOf(t)) {
      ReadsIff(full, SpanOf(t), t.kind, t.ident);
      NamesAre(t.ident);
    }
  }

  lemma OneTokenPerSpan(full: string, ps: seq<Span>, t: Token, u: Token)
    requires Tiling(ps, |full|) && GoodToken(full, ps, t) && GoodToken(full, ps, u) && SpanOf(t) == SpanOf(u)
    ensures t == u
  {
    OnlyOverlap(ps, |full|, SpanOf(t), t.runId);
    assert Overlaps(ps[u.runId], SpanOf(t));
  }

  lemma TokensAre(full: string, ps: seq<Span>, ms: seq<Span>, t: Token)
    requires Tiling(ps, |full|) && AllInText(full, ms) && AllMatches(full, ms)
    ensures t in Tokens(full, ps, ms) <==> GoodToken(full, ps, t)
  {
    forall i | 0 <= i < |ms| ensures IsMatch(full, ms[i]) {
      assert ms[i] in ms;
    }
    TokensAreGood(full, ps, ms);
    if GoodToken(full, ps, t) {
      EmittedIsToken(full, ps, ms, SpanOf(t));
      var u :| u in Tokens(full, ps, ms) && SpanOf(u) == SpanOf(t);
      OneTokenPerSpan(full, ps, t, u);
    }
  }

  /** A token is found exactly where an occurrence lies in one run and reads as an allowed name. */
  lemma TokenIff(runs: seq<string>, t: Token)
    ensures t in ScannedTokens(runs) <==> IsToken(Join(runs), Positions(runs), t)
  {
    ScanShape(runs);
    TokensAre(Join(runs), Positions(runs), MatchesFrom(Join(runs), 0), t);
    GoodIsToken(Join(runs), Positions(runs), t);
  }

  function Rejections(es: seq<ParseError>): seq<ParseError> {
    if es == [] then []
    else Rejections(es[..|es| - 1]) + if Rejection(es[|es| - 1]) then [es[|es| - 1]] else []
  }

  lemma {:induction false} RejectionsOfSum(es: seq<ParseError>, fs: seq<ParseError>)
    ensures Rejections(es + fs) == Rejections(es) + Rejections(fs)
  {
    if fs == [] {
      assert es + fs == es;
    } else {
      RejectionsOfSum(es, fs[..|fs| - 1]);
      assert (es + fs)[..|es + fs| - 1] == es + fs[..|fs| - 1];
    }
  }

  lemma {:induction false} NoRejections(es: seq<ParseError>)
    requires forall e :: e in es ==> !Rejection(e)
    ensures Rejections(es) == []
  {
    if es != [] { NoRejections(es[..|es| - 1]); }
  }

  lemma OneOutcome(full: string, ps: seq<Span>, open: seq<string>, m: Span)
    requires InText(full, m)
    ensures |Rejections(MatchErrors(full, ps, open, m))| + (if Accepted(full, ps, m) then 1 else 0) == 1
  {
    var es := MatchErrors(full, ps, open, m);
    if Accepted(full, ps, m) {
      NoRejections(es);
    } else {
      assert |es| == 1 && Rejection(es[0]);
      assert es[..0] == [];
    }
  }

  lemma {:induction false} OutcomesCount(full: string, ps: seq<Span>, ms: seq<Span>)
    requires AllInText(full, ms)
    ensures |Rejections(Errors(full, ps, ms))| + |Tokens(full, ps, ms)| == |ms|
  {
    if ms != [] {
      var rest, m := ms[..|ms| - 1], ms[|ms| - 1];
      OutcomesCount(full, ps, rest);
      OneOutcome(full, ps, Open(Tokens(full, ps, rest)), m);
      RejectionsOfSum(Errors(full, ps, rest), MatchErrors(full, ps, Open(Tokens(full, ps, rest)), m));
    }
  }

  /** Every occurrence yields one token or one rejection, never both, never two. */
  lemma EveryOccurrenceOnce(runs: seq<string>)
    ensures |Rejections(ScanErrors(runs))| + |ScannedTokens(runs)| == |Occurrences(Join(runs))|
  {
    var full, ps := Join(runs), Positions(runs);
    var ms := MatchesFrom(full, 0);
    MatchesAreAllOccurrences(full, 0);
    OutcomesCount(full, ps, ms);
    var late := Unclosed(Open(ScannedTokens(runs)));
    RejectionsOfSum(Errors(full, ps, ms), late);
    NoRejections(late);
    CountDistinct(ms);
    forall m | m in ms ensures m in Occurrences(full) {
      assert m == Span(m.start, m.end);
    }
    assert (set m | m in ms) == Occurrences(full);
  }

  ghost function Occurrences(full: string): set<Span> {
    set i, j | 0 <= i < j <= |full| && IsMatch(full, Span(i, j)) :: Span(i, j)
  }

  lemma {:induction false} CountDistinct(ms: seq<Span>)
    requires Disjoint(ms) && forall i :: 0 <= i < |ms| ==> ms[i].start < ms[i].end
    ensures |set m | m in ms| == |ms|
  {
    if ms != [] {
      var n := |ms| - 1;
      CountDistinct(ms[..n]);
      assert (set m | m in ms) == (set m | m in ms[..n]) + {ms[n]};
      assert ms[n] !in ms[..n];
    } else {
      assert (set m | m in ms) == {};
    }
  }

  // --------------------------------------------------------- section errors

  predicate Opener(t: Token) {
    t.kind == Section || t.kind == Inverted
  }

  /** Openers less closers among the tokens from a up to b. */
  function Net(ts: seq<Token>, a: int, b: int): int
    requires 0 <= a <= b <= |ts|
    decreases b
  {
    if a == b then 0
    else Net(ts, a, b - 1) + if Opener(ts[b - 1]) then 1 else if ts[b - 1].kind == Closing then -1 else 0
  }

  function NetAfter(ts: seq<Token>, j: int, k: int): int
    requires 0 <= j < k <= |ts|
  {
    Net(ts, j + 1, k)
  }

  /** Before token n the section that token j opens is not closed: at no point since has there been
      a closer more than openers. */
  ghost predicate StillOpen(ts: seq<Token>, j: int, n: int) {
    0 <= j < n <= |ts| && Opener(ts[j]) && forall k :: j < k <= n ==> NetAfter(ts, j, k) >= 0
  }

  ghost predicate Innermost(ts: seq<Token>, j: int, n: int) {
    StillOpen(ts, j, n) && forall i :: StillOpen(ts, i, n) ==> i <= j
  }

  ghost function Enclosing(ts: seq<Token>, n: int): set<int> {
    set j | 0 <= j < n && StillOpen(ts, j, n)
  }

  /** The scanner's stack, with positions for names. */
  function StackAt(ts: seq<Token>, n: nat): seq<int>
    requires n <= |ts|
  {
    if n == 0 then [] else NextStack(ts[n - 1], n - 1, StackAt(ts, n - 1))
  }

  function NextStack(t: Token, n: int, stack: seq<int>): seq<int> {
    if Opener(t) then stack + [n]
    else if t.kind == Closing && stack != [] then stack[..|stack| - 1]
    else stack
  }

  ghost predicate IsStack(ts: seq<Token>, n: nat, stack: seq<int>)
    requires n <= |ts|
  {
    && (forall p :: 0 <= p < |stack| ==> StillOpen(ts, stack[p], n) && Net(ts, stack[p] + 1, n) == |stack| - 1 - p)
    && (forall j :: StillOpen(ts, j, n) ==> j in stack)
    && (forall p, q :: 0 <= p < q < |stack| ==> stack[p] < stack[q])
  }

  lemma StillOpenNext(ts: seq<Token>, j: int, n: nat)
    requires 0 <= j < n < |ts|
    ensures StillOpen(ts, j, n + 1) <==> StillOpen(ts, j, n) && NetAfter(ts, j, n + 1) >= 0
  {
  }

  lemma PushIsStack(ts: seq<Token>, n: nat, stack: seq<int>)
    requires n < |ts| && IsStack(ts, n, stack) && Opener(ts[n])
    ensures IsStack(ts, n + 1, stack + [n])
  {
    var after := stack + [n];
    forall p | 0 <= p < |after| ensures StillOpen(ts, after[p], n + 1) && Net(ts, after[p] + 1, n + 1) == |after| - 1 - p {
      if p < |stack| { StillOpenNext(ts, stack[p], n); }
    }
    forall j | StillOpen(ts, j, n + 1) ensures j in after {
      if j < n {
        StillOpenNext(ts, j, n);
        assert j in stack;
      } else {
        assert after[|stack|] == j;
      }
    }
  }

  lemma PopIsStack(ts: seq<Token>, n: nat, stack: seq<int>)
    requires n < |ts| && IsStack(ts, n, stack) && ts[n].kind == Closing && stack != []
    ensures IsStack(ts, n + 1, stack[..|stack| - 1])
  {
    var after := stack[..|stack| - 1];
    forall p | 0 <= p < |after| ensures StillOpen(ts, after[p], n + 1) && Net(ts, after[p] + 1, n + 1) == |after| - 1 - p {
      StillOpenNext(ts, stack[p], n);
    }
    forall j | StillOpen(ts, j, n + 1) ensures j in after {
      assert j < n;
      StillOpenNext(ts, j, n);
      var p :| 0 <= p < |stack| && stack[p] == j;
      assert Net(ts, j + 1, n + 1) == |stack| - 2 - p;
      assert after[p] == j;
    }
  }

  lemma KeepIsStack(ts: seq<Token>, n: nat, stack: seq<int>)
    requires n < |ts| && IsStack(ts, n, stack) && !Opener(ts[n]) && (ts[n].kind == Closing ==> stack == [])
    ensures IsStack(ts, n + 1, stack)
  {
    forall p | 0 <= p < |stack| ensures StillOpen(ts, stack[p], n + 1) && Net(ts, stack[p] + 1, n + 1) == |stack| - 1 - p {
      StillOpenNext(ts, stack[p], n);
    }
    forall j | StillOpen(ts, j, n + 1) ensures j in stack {
      assert j < n;
      StillOpenNext(ts, j, n);
    }
  }

  lemma NextIsStack(ts: seq<Token>, n: nat, stack: seq<int>)
    requires n < |ts| && IsStack(ts, n, stack)
    ensures IsStack(ts, n + 1, NextStack(ts[n], n, stack))
  {
    if Opener(ts[n]) {
      PushIsStack(ts, n, stack);
    } else if ts[n].kind == Closing && stack != [] {
      PopIsStack(ts, n, stack);
    } else {
      KeepIsStack(ts, n, stack);
    }
  }

  lemma EmptyIsStack(ts: seq<Token>)
    ensures IsStack(ts, 0, [])
  {
  }

  lemma {:induction false} StackIs(ts: seq<Token>, n: nat)
    requires n <= |ts|
    ensures IsStack(ts, n, StackAt(ts, n))
  {
    if n == 0 {
      EmptyIsStack(ts);
    } else {
      StackIs(ts, n - 1);
      NextIsStack(ts, n - 1, StackAt(ts, n - 1));
    }
  }

  ghost predicate NamesOf(ts: seq<Token>, stack: seq<int>, open: seq<string>) {
    |open| == |stack| && forall p :: 0 <= p < |stack| ==> 0 <= stack[p] < |ts| && open[p] == ts[stack[p]].ident
  }

  lemma {:induction false} OpenNames(ts: seq<Token>, n: nat)
    requires n <= |ts|
    ensures NamesOf(ts, StackAt(ts, n), Open(ts[..n]))
  {
    if n > 0 {
      OpenNames(ts, n - 1);
      assert ts[..n][..n - 1] == ts[..n - 1];
    }
  }

  /** The scanner's stack holds, innermost last, the names of the sections still open. */
  lemma OpenIsEnclosing(ts: seq<Token>, n: nat) returns (stack: seq<int>)
    requires n <= |ts|
    ensures IsStack(ts, n, stack) && NamesOf(ts, stack, Open(ts[..n]))
    ensures |Enclosing(ts, n)| == |Open(ts[..n])|
    ensures forall j :: Innermost(ts, j, n) <==> stack != [] && j == stack[|stack| - 1]
  {
    stack := StackAt(ts, n);
    StackIs(ts, n);
    OpenNames(ts, n);
    AscendingCount(stack);
    forall j ensures j in Enclosing(ts, n) <==> j in stack {
    }
    assert Enclosing(ts, n) == set j | j in stack;
    if stack != [] {
      assert StillOpen(ts, stack[|stack| - 1], n);
      assert forall i :: i in stack ==> i <= stack[|stack| - 1];
    }
  }

  lemma {:induction false} AscendingCount(stack: seq<int>)
    requires forall p, q :: 0 <= p < q < |stack| ==> stack[p] < stack[q]
    ensures |set j | j in stack| == |stack|
  {
    if stack != [] {
      var n := |stack| - 1;
      AscendingCount(stack[..n]);
      assert (set j | j in stack) == (set j | j in stack[..n]) + {stack[n]};
      assert stack[n] !in stack[..n];
    } else {
      assert (set j | j in stack) == {};
    }
  }

  ghost predicate SectionAt(ts: seq<Token>, n: int, e: ParseError) {
    0 <= n < |ts| && e in SectionErrors(Open(ts[..n]), ts[n])
  }

  ghost predicate SectionError(ts: seq<Token>, e: ParseError) {
    exists n :: SectionAt(ts, n, e)
  }

  lemma SectionOneMore(ts: seq<Token>, t: Token, e: ParseError)
    ensures SectionError(ts + [t], e) <==> SectionError(ts, e) || e in SectionErrors(Open(ts), t)
  {
    var all := ts + [t];
    forall n | 0 <= n < |ts| ensures SectionAt(all, n, e) <==> SectionAt(ts, n, e) {
      assert all[..n] == ts[..n];
    }
    assert all[..|ts|] == ts;
    assert SectionAt(all, |ts|, e) <==> e in SectionErrors(Open(ts), t);
  }

  lemma {:induction false} SectionSources(full: string, ps: seq<Span>, ms: seq<Span>, e: ParseError)
    requires AllInText(full, ms) && !Rejection(e)
    ensures e in Errors(full, ps, ms) <==> SectionError(Tokens(full, ps, ms), e)
  {
    if ms != [] {
      var rest, m := ms[..|ms| - 1], ms[|ms| - 1];
      SectionSources(full, ps, rest, e);
      if Accepted(full, ps, m) {
        SectionOneMore(Tokens(full, ps, rest), TokenAt(full, ps, m), e);
      }
    }
  }

  /** Token n opens a section inside two or more others. */
  ghost predicate TooDeepAt(ts: seq<Token>, n: int, ident: string, depth: int) {
    0 <= n < |ts| && Opener(ts[n]) && ts[n].ident == ident && depth == |Enclosing(ts, n)| && depth >= 2
  }

  /** Token n closes a section other than the innermost open one, or none. */
  ghost predicate MisclosedAt(ts: seq<Token>, n: int, ident: string, offset: nat) {
    && 0 <= n < |ts| && ts[n].kind == Closing && ts[n].ident == ident && ts[n].start == offset
    && forall j :: Innermost(ts, j, n) ==> ts[j].ident != ident
  }

  lemma SectionErrorsAre(ts: seq<Token>, n: nat, e: ParseError)
    requires n < |ts| && !Rejection(e)
    ensures SectionAt(ts, n, e) <==>
      match e
      case NestedSectionTooDeep(ident, depth) => TooDeepAt(ts, n, ident, depth)
      case UnmatchedClosing(ident, location) => location.Some? && MisclosedAt(ts, n, ident, location.value)
      case _ => false
  {
    var stack := OpenIsEnclosing(ts, n);
    if stack != [] { assert Innermost(ts, stack[|stack| - 1], n); }
  }

  /** A too-deep error names a section, and the number of sections around it, exactly when there is
      one with two or more around it. */
  lemma TooDeepIff(runs: seq<string>, ident: string, depth: int)
    ensures NestedSectionTooDeep(ident, depth) in ScanErrors(runs)
            <==> exists n :: TooDeepAt(ScannedTokens(runs), n, ident, depth)
  {
    var e, ts := NestedSectionTooDeep(ident, depth), ScannedTokens(runs);
    SectionSources(Join(runs), Positions(runs), MatchesFrom(Join(runs), 0), e);
    LateAreUnmatched(Open(ts), e);
    forall n: nat | n < |ts| ensures SectionAt(ts, n, e) <==> TooDeepAt(ts, n, ident, depth) {
      SectionErrorsAre(ts, n, e);
    }
    if n :| TooDeepAt(ts, n, ident, depth) { assert SectionAt(ts, n, e); }
  }

  /** An unmatched closing is reported where a token closes what is not innermost, and a section
      left open is reported by its name. */
  lemma UnmatchedIff(runs: seq<string>, ident: string, location: Option<nat>)
    ensures var ts := ScannedTokens(runs);
            UnmatchedClosing(ident, location) in ScanErrors(runs)
            <==> if location.Some? then exists n :: MisclosedAt(ts, n, ident, location.value)
                 else exists j :: StillOpen(ts, j, |ts|) && ts[j].ident == ident
  {
    var e, ts := UnmatchedClosing(ident, location), ScannedTokens(runs);
    SectionSources(Join(runs), Positions(runs), MatchesFrom(Join(runs), 0), e);
    LateAreUnmatched(Open(ts), e);
    forall n: nat | n < |ts| ensures SectionAt(ts, n, e) <==> location.Some? && MisclosedAt(ts, n, ident, location.value) {
      SectionErrorsAre(ts, n, e);
    }
    if location.Some? {
      if n :| MisclosedAt(ts, n, ident, location.value) { assert SectionAt(ts, n, e); }
    } else {
      LeftOpenIff(ts, ident);
    }
  }

  lemma LeftOpenIff(ts: seq<Token>, ident: string)
    ensures ident in Open(ts) <==> exists j :: StillOpen(ts, j, |ts|) && ts[j].ident == ident
  {
    var stack := OpenIsEnclosing(ts, |ts|);
    assert ts[..|ts|] == ts;
    if ident in Open(ts) {
      var p :| 0 <= p < |Open(ts)| && Open(ts)[p] == ident;
      assert StillOpen(ts, stack[p], |ts|);
    }
    if j :| StillOpen(ts, j, |ts|) && ts[j].ident == ident {
      var p :| 0 <= p < |stack| && stack[p] == j;
      assert Open(ts)[p] == ident;
    }
  }
}
