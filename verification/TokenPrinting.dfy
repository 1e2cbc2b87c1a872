/** Writing tokens out as text and scanning the text again. */
module TokenPrinting {
  import opened Prelude
  import opened TokenScanner
  import opened TokenSections

  /** A token to write, and the brace-free text that follows it. */
  datatype Item = Item(kind: Kind, ident: string, after: string)

  predicate BraceFree(s: string) {
    forall i :: 0 <= i < |s| ==> !IsBrace(s[i])
  }

  predicate Writable(item: Item) {
    IsValidIdent(item.ident) && !IsReservedIdent(item.ident) && BraceFree(item.after)
  }

  function Prefix(kind: Kind): string {
    match kind
    case Var => ""
    case Section => "#"
    case Inverted => "^"
    case Closing => "/"
  }

  function Print(item: Item): string {
    "{" + Prefix(item.kind) + item.ident + "}"
  }

  function PrintAll(items: seq<Item>): string {
    if items == [] then "" else Print(items[0]) + items[0].after + PrintAll(items[1..])
  }

  /** The tokens a scan of the printed text should give, from offset `i` of run 0. */
  function Expected(items: seq<Item>, i: nat): seq<Token> {
    if items == [] then []
    else
      var end := i + |Print(items[0])|;
      [Token(items[0].kind, items[0].ident, i, end, 0)] + Expected(items[1..], end + |items[0].after|)
  }

  function Spans(ts: seq<Token>): seq<Span> {
    seq(|ts|, i requires 0 <= i < |ts| => SpanOf(ts[i]))
  }

  // ------------------------------------------------------------- one token

  lemma IdentHasNoSpaceOrBrace(s: string)
    requires IsValidIdent(s)
    ensures BraceFree(s) && Trim(s) == s
  {
    assert IdentStart(s[0]) && (|s| > 1 ==> IdentPart(s[|s| - 1]));
    forall i | 0 <= i < |s| ensures !IsBrace(s[i]) {
      assert i == 0 || IdentPart(s[i]);
    }
  }

  lemma PrefixIsRead(kind: Kind, ident: string)
    requires |ident| > 0 && IdentStart(ident[0])
    ensures ReadBody(Prefix(kind) + ident) == (kind, Trim(ident))
  {
    var body := Prefix(kind) + ident;
    if kind == Var {
      assert body == ident;
    } else {
      assert body[1..] == ident;
    }
  }

  lemma PrefixHasNoBrace(kind: Kind, ident: string)
    requires BraceFree(ident)
    ensures BraceFree(Prefix(kind) + ident)
  {
  }

  lemma MatchAt(full: string, i: nat, body: string)
    requires |body| > 0 && BraceFree(body)
    requires i + |body| + 2 <= |full| && full[i..i + |body| + 2] == "{" + body + "}"
    ensures IsMatch(full, Span(i, i + |body| + 2)) && full[i + 1..i + 1 + |body|] == body
  {
    var text, end := full[i..i + |body| + 2], i + |body| + 2;
    assert full[i] == text[0] && full[end - 1] == text[|body| + 1];
    forall k | 0 <= k < |body| ensures full[i + 1 + k] == body[k] {
      assert text[k + 1] == full[i + 1 + k];
    }
    assert full[i + 1..i + 1 + |body|] == body;
    forall k | i < k < end - 1 ensures !IsBrace(full[k]) {
      assert full[i + 1 + (k - i - 1)] == body[k - i - 1];
    }
  }

  function Body(item: Item): string {
    Prefix(item.kind) + item.ident
  }

  lemma BodyIsRead(item: Item)
    requires Writable(item)
    ensures |Body(item)| > 0 && BraceFree(Body(item)) && ReadBody(Body(item)) == (item.kind, item.ident)
  {
    IdentHasNoSpaceOrBrace(item.ident);
    PrefixIsRead(item.kind, item.ident);
    PrefixHasNoBrace(item.kind, item.ident);
  }

  lemma BracedIsMatch(full: string, i: nat, body: string)
    requires |body| > 0 && BraceFree(body)
    requires i + |body| + 2 <= |full| && full[i..i + |body| + 2] == "{" + body + "}"
    ensures var m := Span(i, i + |body| + 2); IsMatch(full, m) && ReadMatch(full, m) == ReadBody(body)
  {
    MatchAt(full, i, body);
    ReadMatchIs(full, Span(i, i + |body| + 2), body);
  }

  lemma PrintedIsMatch(full: string, i: nat, item: Item)
    requires Writable(item)
    requires i + |Print(item)| <= |full| && full[i..i + |Print(item)|] == Print(item)
    ensures var m := Span(i, i + |Print(item)|);
            IsMatch(full, m) && ReadMatch(full, m) == (item.kind, item.ident)
  {
    BodyIsRead(item);
    PrintIsBraced(item);
    BracedIsMatch(full, i, Body(item));
  }

  lemma PrintIsBraced(item: Item)
    ensures Print(item) == "{" + Body(item) + "}" && |Print(item)| == |Body(item)| + 2
  {
  }

  lemma ReadMatchIs(full: string, m: Span, body: string)
    requires InText(full, m) && full[m.start + 1..m.end - 1] == body
    ensures ReadMatch(full, m) == ReadBody(body)
  {
  }

  // ------------------------------------------------------------- the matches

  lemma NextMatchIs(full: string, i: nat, m: Span)
    requires i <= m.start && IsMatch(full, m)
    requires forall k :: i <= k < m.start ==> !IsBrace(full[k])
    ensures NextMatch(full, i) == Some(m)
  {
    NextMatchIsLeftmost(full, i);
    var n := NextMatch(full, i);
    assert full[n.value.start] == '{';
    if n.value != m {
      MatchesDisjoint(full, n.value, m);
    }
  }

  lemma {:induction false} NoMatchInPlainText(full: string, i: nat)
    requires i <= |full| && forall k :: i <= k < |full| ==> !IsBrace(full[k])
    ensures NextMatch(full, i) == None
    decreases |full| - i
  {
    if i < |full| {
      assert !IsBrace(full[i]);
      NoMatchInPlainText(full, i + 1);
    }
  }

  lemma Pieces(full: string, i: nat, a: string, b: string, c: string)
    requires i <= |full| && full[i..] == a + b + c
    ensures i + |a| + |b| <= |full| && full[i..i + |a|] == a
    ensures full[i + |a|..i + |a| + |b|] == b && full[i + |a| + |b|..] == c
  {
    var tail := full[i..];
    assert tail[..|a|] == a && tail[|a|..|a| + |b|] == b && tail[|a| + |b|..] == c;
    assert full[i..i + |a|] == tail[..|a|];
    assert full[i + |a|..i + |a| + |b|] == tail[|a|..|a| + |b|];
    assert full[i + |a| + |b|..] == tail[|a| + |b|..];
  }

  lemma PlainPart(full: string, i: nat, j: nat)
    requires i <= j <= |full| && BraceFree(full[i..j])
    ensures forall k :: i <= k < j ==> !IsBrace(full[k])
  {
    forall k | i <= k < j ensures !IsBrace(full[k]) {
      assert full[i..j][k - i] == full[k];
    }
  }

  function EndOf(item: Item, i: nat): nat {
    i + |Print(item)|
  }

  function NextOf(item: Item, i: nat): nat {
    i + |Print(item)| + |item.after|
  }

  lemma FirstOfSpans(items: seq<Item>, i: nat)
    requires items != []
    ensures Spans(Expected(items, i)) == [Span(i, EndOf(items[0], i))] + Spans(Expected(items[1..], NextOf(items[0], i)))
  {
    var ts := Expected(items, i);
    assert SpanOf(ts[0]) == Span(i, EndOf(items[0], i));
    assert ts[1..] == Expected(items[1..], NextOf(items[0], i));
  }

  lemma FirstMatch(full: string, i: nat, m: Span)
    requires i <= m.start && IsMatch(full, m)
    requires forall k :: i <= k < m.start ==> !IsBrace(full[k])
    ensures MatchesFrom(full, i) == [m] + MatchesFrom(full, m.end)
  {
    NextMatchIs(full, i, m);
  }

  lemma PrintAllFirst(items: seq<Item>)
    requires items != []
    ensures PrintAll(items) == Print(items[0]) + items[0].after + PrintAll(items[1..])
  {
  }

  lemma FirstPrinted(full: string, i: nat, items: seq<Item>)
    requires i <= |full| && full[i..] == PrintAll(items) && items != [] && Writable(items[0])
    ensures var item := items[0];
            && NextOf(item, i) <= |full| && full[NextOf(item, i)..] == PrintAll(items[1..])
            && IsMatch(full, Span(i, EndOf(item, i))) && ReadMatch(full, Span(i, EndOf(item, i))) == (item.kind, item.ident)
            && forall k :: EndOf(item, i) <= k < NextOf(item, i) ==> !IsBrace(full[k])
  {
    PrintAllFirst(items);
    FirstPiece(full, i, items[0], PrintAll(items[1..]));
  }

  lemma FirstPiece(full: string, i: nat, item: Item, rest: string)
    requires i <= |full| && full[i..] == Print(item) + item.after + rest && Writable(item)
    ensures NextOf(item, i) <= |full| && full[NextOf(item, i)..] == rest
    ensures IsMatch(full, Span(i, EndOf(item, i))) && ReadMatch(full, Span(i, EndOf(item, i))) == (item.kind, item.ident)
    ensures forall k :: EndOf(item, i) <= k < NextOf(item, i) ==> !IsBrace(full[k])
  {
    Pieces(full, i, Print(item), item.after, rest);
    PrintedIsMatch(full, i, item);
    PlainPart(full, EndOf(item, i), NextOf(item, i));
  }

  /** From `i`, after plain text up to `j`, the matches are the printed tokens. */
  lemma {:induction false} MatchesArePrinted(full: string, i: nat, j: nat, items: seq<Item>)
    requires i <= j <= |full| && full[j..] == PrintAll(items)
    requires forall k :: i <= k < j ==> !IsBrace(full[k])
    requires forall k :: 0 <= k < |items| ==> Writable(items[k])
    ensures MatchesFrom(full, i) == Spans(Expected(items, j))
    decreases |items|
  {
    if items == [] {
      assert |full[j..]| == 0;
      NoMatchInPlainText(full, i);
    } else {
      FirstPrinted(full, j, items);
      var m := Span(j, EndOf(items[0], j));
      FirstMatch(full, i, m);
      MatchesArePrinted(full, m.end, NextOf(items[0], j), items[1..]);
      FirstOfSpans(items, j);
    }
  }

  // -------------------------------------------------------------- the tokens

  lemma FirstReadsAs(full: string, item: Item, i: nat, rest: string)
    requires i <= |full| && full[i..] == Print(item) + item.after + rest && Writable(item)
    ensures ReadsAs(full, Token(item.kind, item.ident, i, EndOf(item, i), 0))
  {
    FirstPiece(full, i, item, rest);
  }

  lemma RestPrinted(full: string, items: seq<Item>, i: nat)
    requires i <= |full| && full[i..] == PrintAll(items) && items != []
    ensures NextOf(items[0], i) <= |full| && full[NextOf(items[0], i)..] == PrintAll(items[1..])
  {
    PrintAllFirst(items);
    Pieces(full, i, Print(items[0]), items[0].after, PrintAll(items[1..]));
  }

  lemma ExpectedParts(items: seq<Item>, i: nat)
    requires items != []
    ensures Expected(items, i) == [Token(items[0].kind, items[0].ident, i, EndOf(items[0], i), 0)]
                                  + Expected(items[1..], NextOf(items[0], i))
  {
  }

  lemma {:induction false} ExpectedReadsAs(full: string, items: seq<Item>, i: nat, k: int)
    requires i <= |full| && full[i..] == PrintAll(items) && 0 <= k < |Expected(items, i)|
    requires forall m :: 0 <= m < |items| ==> Writable(items[m])
    ensures ReadsAs(full, Expected(items, i)[k])
    decreases |items|
  {
    ExpectedParts(items, i);
    if k == 0 {
      PrintAllFirst(items);
      FirstReadsAs(full, items[0], i, PrintAll(items[1..]));
    } else {
      RestPrinted(full, items, i);
      ExpectedReadsAs(full, items[1..], NextOf(items[0], i), k - 1);
    }
  }

  lemma ExpectedShape(full: string, items: seq<Item>, i: nat)
    requires i <= |full| && full[i..] == PrintAll(items)
    requires forall k :: 0 <= k < |items| ==> Writable(items[k])
    ensures forall k {:trigger ReadsAs(full, Expected(items, i)[k])} ::
              0 <= k < |Expected(items, i)| ==> ReadsAs(full, Expected(items, i)[k])
  {
    forall k | 0 <= k < |Expected(items, i)| ensures ReadsAs(full, Expected(items, i)[k]) {
      ExpectedReadsAs(full, items, i, k);
    }
  }

  ghost predicate ReadsAs(full: string, t: Token) {
    && t.runId == 0 && IsMatch(full, SpanOf(t)) && ReadMatch(full, SpanOf(t)) == (t.kind, t.ident)
    && IsValidIdent(t.ident) && !IsReservedIdent(t.ident)
  }

  lemma OneRun(full: string)
    ensures Join([full]) == full && Positions([full]) == [Span(0, |full|)]
  {
    assert [full][..0] == [];
    assert Join([full]) == Join([]) + full;
  }

  ghost predicate OnlySectionErrors(es: seq<ParseError>) {
    forall e :: e in es ==> e.UnmatchedClosing? || e.NestedSectionTooDeep?
  }

  lemma ReadsBackInRun(full: string, t: Token, open: seq<string>)
    requires ReadsAs(full, t)
    ensures var ps := [Span(0, |full|)];
            && Accepted(full, ps, SpanOf(t)) && TokenAt(full, ps, SpanOf(t)) == t
            && OnlySectionErrors(MatchErrors(full, ps, open, SpanOf(t)))
  {
    var ps, m := [Span(0, |full|)], SpanOf(t);
    assert ps[..0] == [];
    assert RunsSpanning([], m) == [];
    assert RunsSpanning(ps, m) == [0];
  }

  lemma LastOfSpans(ts: seq<Token>, t: Token)
    ensures Spans(ts + [t]) == Spans(ts) + [SpanOf(t)]
  {
  }

  /** The scan of these spans, in one run, gives these tokens and no error but nesting ones. */
  ghost predicate ScansTo(full: string, ms: seq<Span>, ts: seq<Token>) {
    && AllInText(full, ms) && Tokens(full, [Span(0, |full|)], ms) == ts
    && OnlySectionErrors(Errors(full, [Span(0, |full|)], ms))
  }

  lemma ScansToMore(full: string, ms: seq<Span>, ts: seq<Token>, t: Token)
    requires ScansTo(full, ms, ts) && ReadsAs(full, t)
    ensures ScansTo(full, ms + [SpanOf(t)], ts + [t])
  {
    var ps := [Span(0, |full|)];
    ReadsBackInRun(full, t, Open(ts));
    ScanOneMore(full, ps, ms, SpanOf(t));
  }

  lemma {:induction false} TokensReadBack(full: string, ts: seq<Token>)
    requires forall i {:trigger ReadsAs(full, ts[i])} :: 0 <= i < |ts| ==> ReadsAs(full, ts[i])
    ensures ScansTo(full, Spans(ts), ts)
  {
    if ts == [] {
      assert Spans(ts) == [];
    } else {
      var before, t := ts[..|ts| - 1], ts[|ts| - 1];
      assert ReadsAs(full, t);
      forall i {:trigger ReadsAs(full, before[i])} | 0 <= i < |before| ensures ReadsAs(full, before[i]) {
        assert ReadsAs(full, ts[i]);
      }
      TokensReadBack(full, before);
      ScansToMore(full, Spans(before), before, t);
      LastOfSpans(before, t);
      assert before + [t] == ts;
    }
  }

  /** Scanning printed tokens, with brace-free text around them, in one run gives those tokens
      back at the offsets they were printed to, and no error but ones about section nesting. */
  lemma ScanPrinted(lead: string, items: seq<Item>)
    requires BraceFree(lead) && forall k :: 0 <= k < |items| ==> Writable(items[k])
    ensures ScannedTokens([lead + PrintAll(items)]) == Expected(items, |lead|)
    ensures OnlySectionErrors(ScanErrors([lead + PrintAll(items)]))
  {
    var full := lead + PrintAll(items);
    OneRun(full);
    assert full[|lead|..] == PrintAll(items);
    MatchesArePrinted(full, 0, |lead|, items);
    ExpectedShape(full, items, |lead|);
    TokensReadBack(full, Expected(items, |lead|));
  }
}
