/** What the scanner's section stack decides: a scan is free of unmatched sections exactly when
    its section tokens are the brackets of a forest of properly nested sections, and sections
    nest too deep exactly when that forest is too high. */
module TokenSections {
  import opened TokenScanner

  datatype Bracket = Opens(ident: string) | Closes(ident: string)

  /** A section with its nested sections. */
  datatype Tree = Tree(ident: string, inner: Forest)

  datatype Forest = Empty | Grow(first: Tree, rest: Forest)

  function Word(f: Forest): seq<Bracket> {
    match f
    case Empty => []
    case Grow(t, rest) => [Opens(t.ident)] + Word(t.inner) + [Closes(t.ident)] + Word(rest)
  }

  function Height(f: Forest): nat {
    match f
    case Empty => 0
    case Grow(t, rest) => Max(1 + Height(t.inner), Height(rest))
  }

  function Max(a: int, b: int): int {
    if a < b then b else a
  }

  function Brackets(ts: seq<Token>): seq<Bracket> {
    if ts == [] then []
    else
      var before, t := Brackets(ts[..|ts| - 1]), ts[|ts| - 1];
      if t.kind == Var then before
      else if t.kind == Closing then before + [Closes(t.ident)]
      else before + [Opens(t.ident)]
  }

  ghost predicate Balanced(w: seq<Bracket>) {
    exists f :: Word(f) == w
  }

  // --------------------------------------------------- the stack, as a machine

  function Pushed(open: seq<string>, b: Bracket): seq<string> {
    if b.Opens? then open + [b.ident] else if open == [] then open else open[..|open| - 1]
  }

  function Fits(open: seq<string>, b: Bracket): bool {
    b.Closes? ==> open != [] && open[|open| - 1] == b.ident
  }

  function Stack(open: seq<string>, w: seq<Bracket>): seq<string>
    decreases |w|
  {
    if w == [] then open else Stack(Pushed(open, w[0]), w[1..])
  }

  predicate AllFit(open: seq<string>, w: seq<Bracket>)
    decreases |w|
  {
    w == [] || (Fits(open, w[0]) && AllFit(Pushed(open, w[0]), w[1..]))
  }

  /** The greatest number of sections open at once after a bracket has opened. */
  function Peak(open: seq<string>, w: seq<Bracket>): nat
    decreases |w|
  {
    if w == [] then 0
    else Max(if w[0].Opens? then |open| + 1 else 0, Peak(Pushed(open, w[0]), w[1..]))
  }

  lemma {:induction false} StackSplit(open: seq<string>, a: seq<Bracket>, b: seq<Bracket>)
    ensures Stack(open, a + b) == Stack(Stack(open, a), b)
    ensures AllFit(open, a + b) <==> AllFit(open, a) && AllFit(Stack(open, a), b)
    ensures Peak(open, a + b) == Max(Peak(open, a), Peak(Stack(open, a), b))
    decreases |a|
  {
    if a == [] {
      assert a + b == b;
    } else {
      assert (a + b)[1..] == a[1..] + b;
      StackSplit(Pushed(open, a[0]), a[1..], b);
    }
  }

  /** A word that leaves the stack as it found it, with the given peak. */
  ghost predicate Runs(open: seq<string>, w: seq<Bracket>, peak: int) {
    AllFit(open, w) && Stack(open, w) == open && Peak(open, w) == peak
  }

  lemma SectionRuns(open: seq<string>, ident: string, inner: seq<Bracket>, peak: nat)
    requires Runs(open + [ident], inner, peak)
    ensures Runs(open, [Opens(ident)] + inner + [Closes(ident)], Max(|open| + 1, peak))
  {
    var open1, closing := open + [ident], [Closes(ident)];
    StackSplit(open1, inner, closing);
    assert Pushed(open1, closing[0]) == open;
    assert closing[1..] == [];
    assert AllFit(open1, closing) && Stack(open1, closing) == open && Peak(open1, closing) == 0;
    var w := [Opens(ident)] + inner + [Closes(ident)];
    assert w[0] == Opens(ident) && w[1..] == inner + closing;
  }

  lemma {:induction false} ForestRuns(open: seq<string>, f: Forest)
    ensures Runs(open, Word(f), if f.Empty? then 0 else |open| + Height(f))
    decreases f
  {
    if f.Grow? {
      var t, rest := f.first, f.rest;
      ForestRuns(open + [t.ident], t.inner);
      ForestRuns(open, rest);
      SectionRuns(open, t.ident, Word(t.inner), if t.inner.Empty? then 0 else |open| + 1 + Height(t.inner));
      StackSplit(open, [Opens(t.ident)] + Word(t.inner) + [Closes(t.ident)], Word(rest));
    }
  }

  /** `w` closes every section of `open`, innermost first, with forests in between. */
  ghost predicate Unwinds(open: seq<string>, w: seq<Bracket>)
    decreases |open|
  {
    if open == [] then Balanced(w)
    else exists f, rest :: Unwound(open, w, f, rest)
  }

  ghost predicate Unwound(open: seq<string>, w: seq<Bracket>, f: Forest, rest: seq<Bracket>)
    requires open != []
    decreases |open|, 0
  {
    w == Word(f) + [Closes(open[|open| - 1])] + rest && Unwinds(open[..|open| - 1], rest)
  }

  lemma UnwindsMore(open: seq<string>, t: Tree, rest: seq<Bracket>)
    requires Unwinds(open, rest)
    ensures Unwinds(open, [Opens(t.ident)] + Word(t.inner) + [Closes(t.ident)] + rest)
  {
    var w := [Opens(t.ident)] + Word(t.inner) + [Closes(t.ident)] + rest;
    if open == [] {
      var f :| Word(f) == rest;
      assert Word(Grow(t, f)) == w;
    } else {
      var f, tail :| Unwound(open, rest, f, tail);
      assert w == Word(Grow(t, f)) + [Closes(open[|open| - 1])] + tail;
      assert Unwound(open, w, Grow(t, f), tail);
    }
  }

  lemma UnwindsClose(open: seq<string>, rest: seq<Bracket>)
    requires open != [] && Unwinds(open[..|open| - 1], rest)
    ensures Unwinds(open, [Closes(open[|open| - 1])] + rest)
  {
    var w := [Closes(open[|open| - 1])] + rest;
    assert w == Word(Empty) + [Closes(open[|open| - 1])] + rest;
    assert Unwound(open, w, Empty, rest);
  }

  lemma UnwindsOpen(open: seq<string>, ident: string, rest: seq<Bracket>)
    requires Unwinds(open + [ident], rest)
    ensures Unwinds(open, [Opens(ident)] + rest)
  {
    var pushed := open + [ident];
    var f, tail :| Unwound(pushed, rest, f, tail);
    assert pushed[..|pushed| - 1] == open;
    UnwindsMore(open, Tree(ident, f), tail);
    assert [Opens(ident)] + rest == [Opens(ident)] + Word(f) + [Closes(ident)] + tail;
  }

  lemma {:induction false} FittingUnwinds(open: seq<string>, w: seq<Bracket>)
    requires AllFit(open, w) && Stack(open, w) == []
    ensures Unwinds(open, w)
    decreases |w|
  {
    if w == [] {
      assert Word(Empty) == w;
    } else {
      FittingUnwinds(Pushed(open, w[0]), w[1..]);
      assert w == [w[0]] + w[1..];
      match w[0]
      case Opens(ident) => UnwindsOpen(open, ident, w[1..]);
      case Closes(ident) => UnwindsClose(open, w[1..]);
    }
  }

  lemma FitsIffBalanced(w: seq<Bracket>)
    ensures AllFit([], w) && Stack([], w) == [] <==> Balanced(w)
  {
    if AllFit([], w) && Stack([], w) == [] {
      FittingUnwinds([], w);
    }
    if f :| Word(f) == w {
      ForestRuns([], f);
    }
  }

  // ------------------------------------------------ the scanner runs the machine

  lemma {:induction false} BracketsSnoc(ts: seq<Token>)
    requires ts != []
    ensures var before, t := ts[..|ts| - 1], ts[|ts| - 1];
            && Open(ts) == Stack([], Brackets(ts))
            && (AllFit([], Brackets(ts)) <==>
                AllFit([], Brackets(before)) && (t.kind == Closing ==> Fits(Open(before), Closes(t.ident))))
            && Peak([], Brackets(ts)) ==
               Max(Peak([], Brackets(before)), if t.kind == Section || t.kind == Inverted then |Open(before)| + 1 else 0)
    decreases |ts|
  {
    var before, t := ts[..|ts| - 1], ts[|ts| - 1];
    if before != [] { BracketsSnoc(before); }
    assert Open(before) == Stack([], Brackets(before));
    if t.kind != Var {
      var b := if t.kind == Closing then Closes(t.ident) else Opens(t.ident);
      StackSplit([], Brackets(before), [b]);
      var open := Open(before);
      assert Stack(open, [b]) == Stack(Pushed(open, b), []);
      assert Peak(open, [b]) == Max(if b.Opens? then |open| + 1 else 0, Peak(Pushed(open, b), []));
    }
  }

  ghost predicate HasUnmatched(es: seq<ParseError>) {
    exists e :: e in es && e.UnmatchedClosing?
  }

  ghost predicate HasTooDeep(es: seq<ParseError>) {
    exists e :: e in es && e.NestedSectionTooDeep?
  }

  ghost predicate Tells(es: seq<ParseError>, ts: seq<Token>) {
    && (HasUnmatched(es) <==> !AllFit([], Brackets(ts)))
    && (HasTooDeep(es) <==> Peak([], Brackets(ts)) > MAX_SECTION_DEPTH + 1)
  }

  lemma OpenIsStack(ts: seq<Token>)
    ensures Open(ts) == Stack([], Brackets(ts))
  {
    if ts != [] { BracketsSnoc(ts); }
  }

  /** What a token adds to the errors and to the word decides as much of the one as of the other. */
  lemma TokenTells(before: seq<Token>, t: Token)
    ensures var w, w' := Brackets(before), Brackets(before + [t]);
            && (AllFit([], w') <==> AllFit([], w) && !HasUnmatched(SectionErrors(Open(before), t)))
            && (Peak([], w') > MAX_SECTION_DEPTH + 1
                <==> Peak([], w) > MAX_SECTION_DEPTH + 1 || HasTooDeep(SectionErrors(Open(before), t)))
  {
    assert (before + [t])[..|before + [t]| - 1] == before;
    BracketsSnoc(before + [t]);
    FoundErrors(Open(before), t);
  }

  lemma {:induction false} ErrorsTellTheStack(full: string, ps: seq<Span>, ms: seq<Span>)
    requires AllInText(full, ms)
    ensures Tells(Errors(full, ps, ms), Tokens(full, ps, ms))
  {
    if ms != [] {
      var rest, m := ms[..|ms| - 1], ms[|ms| - 1];
      ErrorsTellTheStack(full, ps, rest);
      var es, before := Errors(full, ps, rest), Tokens(full, ps, rest);
      AddedErrors(es, MatchErrors(full, ps, Open(before), m));
      if Accepted(full, ps, m) { TokenTells(before, TokenAt(full, ps, m)); }
    }
  }

  lemma AddedErrors(es: seq<ParseError>, found: seq<ParseError>)
    ensures HasUnmatched(es + found) <==> HasUnmatched(es) || HasUnmatched(found)
    ensures HasTooDeep(es + found) <==> HasTooDeep(es) || HasTooDeep(found)
  {
  }

  lemma FoundErrors(open: seq<string>, t: Token)
    ensures HasUnmatched(SectionErrors(open, t)) <==> t.kind == Closing && !Fits(open, Closes(t.ident))
    ensures HasTooDeep(SectionErrors(open, t)) <==>
      (t.kind == Section || t.kind == Inverted) && |open| + 1 > MAX_SECTION_DEPTH + 1
  {
    var es := SectionErrors(open, t);
    if es != [] { assert es[0] in es; }
  }

  /** All the errors of one scan, as ScanTokens returns them. */
  function ScanErrors(runs: seq<string>): seq<ParseError> {
    var full, ps := Join(runs), Positions(runs);
    Errors(full, ps, MatchesFrom(full, 0)) + Unclosed(Open(Tokens(full, ps, MatchesFrom(full, 0))))
  }

  function ScannedTokens(runs: seq<string>): seq<Token> {
    Tokens(Join(runs), Positions(runs), MatchesFrom(Join(runs), 0))
  }

  /** No unmatched section is reported exactly when the emitted section tokens form a balanced
      word in which every section is closed by its own name. */
  lemma NoUnmatchedIffBalanced(runs: seq<string>)
    ensures !HasUnmatched(ScanErrors(runs)) <==> Balanced(Brackets(ScannedTokens(runs)))
  {
    var full, ps := Join(runs), Positions(runs);
    var ts := ScannedTokens(runs);
    ErrorsTellTheStack(full, ps, MatchesFrom(full, 0));
    OpenIsStack(ScannedTokens(runs));
    AddedErrors(Errors(full, ps, MatchesFrom(full, 0)), Unclosed(Open(ts)));
    var late := Unclosed(Open(ts));
    assert HasUnmatched(late) <==> Open(ts) != [] by {
      if Open(ts) != [] { assert late[0] in late; }
    }
    FitsIffBalanced(Brackets(ts));
  }

  /** For sections that do match, too-deep nesting is reported exactly when some section lies
      more than MAX_SECTION_DEPTH levels inside another. */
  lemma TooDeepIffHigh(runs: seq<string>, f: Forest)
    requires Word(f) == Brackets(ScannedTokens(runs))
    ensures HasTooDeep(ScanErrors(runs)) <==> Height(f) > MAX_SECTION_DEPTH + 1
  {
    var full, ps := Join(runs), Positions(runs);
    ErrorsTellTheStack(full, ps, MatchesFrom(full, 0));
    OpenIsStack(ScannedTokens(runs));
    AddedErrors(Errors(full, ps, MatchesFrom(full, 0)), Unclosed(Open(ScannedTokens(runs))));
    ForestRuns([], f);
  }
}
