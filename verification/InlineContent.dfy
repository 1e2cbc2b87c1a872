/** canonicalizeInlineContent: marks sorted, texts normalised, neighbouring runs of the same
    decoration merged.  The result is a normal form of the decorated text. */
module InlineContent {
  import opened Prelude
  import opened JsonKeys

  datatype Mark = Mark(kind: string)

  datatype Run = Run(text: string, marks: Option<seq<Mark>>, link: Option<Json>, documentRef: Option<Json>)

  /** What stands in an array of inline children: a run, or something without a text. */
  datatype Item = Item(text: Option<string>, marks: Option<seq<Mark>>, link: Option<Json>, documentRef: Option<Json>)

  datatype TypeError = TypeError

  /** String.prototype.normalize("NFC"), and the rank localeCompare orders strings by; strings
      it does not tell apart share a rank. */
  datatype Library = Library(nfc: string -> string, collate: string -> real)

  const MARK_ORDER: seq<string> := ["bold", "code", "italic", "strike", "underline"]

  // ------------------------------------------------------------------ marks

  function IndexOf(kind: string): int {
    if kind == "bold" then 0
    else if kind == "code" then 1
    else if kind == "italic" then 2
    else if kind == "strike" then 3
    else if kind == "underline" then 4
    else -1
  }

  lemma IndexOfIsPosition(kind: string)
    ensures IndexOf(kind) == -1 <==> kind !in MARK_ORDER
    ensures kind in MARK_ORDER ==> 0 <= IndexOf(kind) < |MARK_ORDER| && MARK_ORDER[IndexOf(kind)] == kind
  {
  }

  function Sign(x: real): int {
    if x < 0.0 then -1 else if x == 0.0 then 0 else 1
  }

  /** The comparator handed to Array.prototype.sort. */
  function Compare(lib: Library, a: Mark, b: Mark): int {
    var left, right := IndexOf(a.kind), IndexOf(b.kind);
    if left == -1 && right == -1 then Sign(lib.collate(a.kind) - lib.collate(b.kind))
    else if left == -1 then 1
    else if right == -1 then -1
    else left - right
  }

  function InsertMark(lib: Library, m: Mark, ms: seq<Mark>): seq<Mark> {
    if ms == [] || Compare(lib, m, ms[0]) <= 0 then [m] + ms else [ms[0]] + InsertMark(lib, m, ms[1..])
  }

  /** A stable sort by Compare. */
  function SortMarks(lib: Library, ms: seq<Mark>): seq<Mark> {
    if ms == [] then [] else InsertMark(lib, ms[0], SortMarks(lib, ms[1..]))
  }

  ghost predicate Ordered(lib: Library, ms: seq<Mark>) {
    forall i, j :: 0 <= i < j < |ms| ==> Compare(lib, ms[i], ms[j]) <= 0
  }

  /** The comparator tells the different marks of this list apart. */
  ghost predicate Separates(lib: Library, ms: seq<Mark>) {
    forall i, j :: 0 <= i < |ms| && 0 <= j < |ms| && Compare(lib, ms[i], ms[j]) == 0 ==> ms[i] == ms[j]
  }

  lemma {:induction false} InsertMarkKeeps(lib: Library, m: Mark, ms: seq<Mark>)
    requires Ordered(lib, ms)
    ensures Ordered(lib, InsertMark(lib, m, ms))
    ensures multiset(InsertMark(lib, m, ms)) == multiset{m} + multiset(ms)
  {
    if ms == [] || Compare(lib, m, ms[0]) <= 0 {
      assert [m] + ms == InsertMark(lib, m, ms);
    } else {
      InsertMarkKeeps(lib, m, ms[1..]);
      var rest := InsertMark(lib, m, ms[1..]);
      assert ms == [ms[0]] + ms[1..];
      forall j | 0 <= j < |rest| ensures Compare(lib, ms[0], rest[j]) <= 0 {
        assert rest[j] in multiset(rest);
        assert rest[j] == m || rest[j] in ms[1..];
      }
    }
  }

  lemma {:induction false} SortMarksSorts(lib: Library, ms: seq<Mark>)
    ensures Ordered(lib, SortMarks(lib, ms)) && multiset(SortMarks(lib, ms)) == multiset(ms)
  {
    if ms != [] {
      SortMarksSorts(lib, ms[1..]);
      InsertMarkKeeps(lib, ms[0], SortMarks(lib, ms[1..]));
      assert ms == [ms[0]] + ms[1..];
    }
  }

  lemma {:induction false} SortedMarksStay(lib: Library, ms: seq<Mark>)
    requires Ordered(lib, ms)
    ensures SortMarks(lib, ms) == ms
  {
    if ms != [] {
      SortedMarksStay(lib, ms[1..]);
      assert ms == [ms[0]] + ms[1..];
    }
  }

  lemma CompareAntisymmetric(lib: Library, ms: seq<Mark>, a: Mark, b: Mark)
    requires Separates(lib, ms) && a in ms && b in ms && Compare(lib, a, b) <= 0 && Compare(lib, b, a) <= 0
    ensures a == b
  {
    IndexOfIsPosition(a.kind);
    IndexOfIsPosition(b.kind);
    assert Compare(lib, a, b) == 0;
  }

  lemma OrderedFirst(lib: Library, ms: seq<Mark>, m: Mark)
    requires Ordered(lib, ms) && m in ms
    ensures m == ms[0] || Compare(lib, ms[0], m) <= 0
  {
  }

  lemma Tail(lib: Library, ms: seq<Mark>)
    requires ms != [] && Ordered(lib, ms)
    ensures Separates(lib, ms) ==> Separates(lib, ms[1..])
    ensures Ordered(lib, ms[1..]) && multiset(ms[1..]) == multiset(ms) - multiset{ms[0]}
  {
    assert ms == [ms[0]] + ms[1..];
  }

  lemma SameFirst(lib: Library, ms: seq<Mark>, ns: seq<Mark>)
    requires Separates(lib, ms) && Ordered(lib, ms) && Ordered(lib, ns) && multiset(ms) == multiset(ns)
    requires ms != [] && ns != []
    ensures ms[0] == ns[0]
  {
    assert ms[0] in multiset(ns) && ns[0] in multiset(ms);
    OrderedFirst(lib, ms, ns[0]);
    OrderedFirst(lib, ns, ms[0]);
    if ms[0] != ns[0] { CompareAntisymmetric(lib, ms, ms[0], ns[0]); }
  }

  lemma {:induction false} OrderedUnique(lib: Library, ms: seq<Mark>, ns: seq<Mark>)
    requires Separates(lib, ms) && Ordered(lib, ms) && Ordered(lib, ns) && multiset(ms) == multiset(ns)
    ensures ms == ns
  {
    assert |ms| == |multiset(ms)| && |ns| == |multiset(ns)|;
    if ms != [] {
      SameFirst(lib, ms, ns);
      Tail(lib, ms);
      Tail(lib, ns);
      OrderedUnique(lib, ms[1..], ns[1..]);
    }
  }

  /** Sorting keeps the marks, and lists of the same marks sort equally when the comparator
      tells these apart. */
  lemma SortMarksIffSameMarks(lib: Library, ms: seq<Mark>, ns: seq<Mark>)
    requires Separates(lib, ms)
    ensures SortMarks(lib, ms) == SortMarks(lib, ns) <==> multiset(ms) == multiset(ns)
  {
    SortMarksSorts(lib, ms);
    SortMarksSorts(lib, ns);
    if multiset(ms) == multiset(ns) {
      SameMarksSeparate(lib, ms, SortMarks(lib, ms));
      OrderedUnique(lib, SortMarks(lib, ms), SortMarks(lib, ns));
    }
  }

  lemma SameMarksSeparate(lib: Library, ms: seq<Mark>, ns: seq<Mark>)
    requires Separates(lib, ms) && multiset(ms) == multiset(ns)
    ensures Separates(lib, ns)
  {
    forall i, j | 0 <= i < |ns| && 0 <= j < |ns| && Compare(lib, ns[i], ns[j]) == 0 ensures ns[i] == ns[j] {
      assert ns[i] in multiset(ms) && ns[j] in multiset(ms);
      var k :| 0 <= k < |ms| && ms[k] == ns[i];
      var m :| 0 <= m < |ms| && ms[m] == ns[j];
    }
  }

  /** Two marks that tie keep the order they came in. */
  lemma {:induction false} TiesStay(lib: Library, a: Mark, b: Mark, ms: seq<Mark>)
    requires Compare(lib, a, b) == 0 && a != b
    ensures InsertMark(lib, a, InsertMark(lib, b, ms)) != InsertMark(lib, b, InsertMark(lib, a, ms))
  {
    IndexOfIsPosition(a.kind);
    IndexOfIsPosition(b.kind);
    if ms != [] && Compare(lib, a, ms[0]) > 0 {
      var first, second := InsertMark(lib, b, ms), InsertMark(lib, a, ms);
      assert first[0] == ms[0] == second[0];
      assert first[1..] == InsertMark(lib, b, ms[1..]) && second[1..] == InsertMark(lib, a, ms[1..]);
      TiesStay(lib, a, b, ms[1..]);
      assert InsertMark(lib, a, first)[1..] == InsertMark(lib, a, first[1..]);
      assert InsertMark(lib, b, second)[1..] == InsertMark(lib, b, second[1..]);
    } else {
      assert InsertMark(lib, a, [b] + ms)[0] == a && InsertMark(lib, b, [a] + ms)[0] == b;
    }
  }

  lemma TakeTwo(ms: seq<Mark>, i: int, j: int) returns (rest: seq<Mark>)
    requires 0 <= i < j < |ms|
    ensures multiset([ms[i], ms[j]] + rest) == multiset(ms) == multiset([ms[j], ms[i]] + rest)
  {
    rest := ms[..i] + ms[i + 1..j] + ms[j + 1..];
    assert ms == ms[..i] + [ms[i]] + ms[i + 1..j] + [ms[j]] + ms[j + 1..];
  }

  lemma TieShows(lib: Library, a: Mark, b: Mark, rest: seq<Mark>)
    requires Compare(lib, a, b) == 0 && a != b
    ensures SortMarks(lib, [a, b] + rest) != SortMarks(lib, [b, a] + rest)
  {
    var ns, ps := [a, b] + rest, [b, a] + rest;
    assert ns[1..] == [b] + rest && ps[1..] == [a] + rest;
    assert ns[1..][1..] == rest && ps[1..][1..] == rest;
    TiesStay(lib, a, b, SortMarks(lib, rest));
  }

  ghost predicate OrderForgotten(lib: Library, ms: seq<Mark>) {
    forall ns: seq<Mark> :: multiset(ns) == multiset(ms) ==> SortMarks(lib, ns) == SortMarks(lib, ms)
  }

  lemma TieIsSeen(lib: Library, ms: seq<Mark>, i: int, j: int)
    requires OrderForgotten(lib, ms) && 0 <= i < j < |ms| && Compare(lib, ms[i], ms[j]) == 0
    ensures ms[i] == ms[j]
  {
    if ms[i] != ms[j] {
      var rest := TakeTwo(ms, i, j);
      TieShows(lib, ms[i], ms[j], rest);
    }
  }

  /** The order marks are listed in is forgotten exactly when the comparator tells them apart. */
  lemma OrderForgottenIff(lib: Library, ms: seq<Mark>)
    ensures OrderForgotten(lib, ms) <==> Separates(lib, ms)
  {
    if Separates(lib, ms) {
      forall ns: seq<Mark> | multiset(ns) == multiset(ms) ensures SortMarks(lib, ns) == SortMarks(lib, ms) {
        SortMarksIffSameMarks(lib, ms, ns);
      }
    }
    if OrderForgotten(lib, ms) {
      forall i, j | 0 <= i < j < |ms| && Compare(lib, ms[i], ms[j]) == 0 ensures ms[i] == ms[j] {
        TieIsSeen(lib, ms, i, j);
      }
    }
  }

  // ------------------------------------------------------------------- runs

  function SortMarksOf(lib: Library, marks: Option<seq<Mark>>): Option<seq<Mark>> {
    if marks.None? then None else Some(SortMarks(lib, marks.value))
  }

  function Prepare(lib: Library, r: Run): Run {
    r.(text := lib.nfc(r.text), marks := SortMarksOf(lib, r.marks))
  }

  function PrepareAll(lib: Library, rs: seq<Run>): seq<Run> {
    seq(|rs|, i requires 0 <= i < |rs| => Prepare(lib, rs[i]))
  }

  predicate SameDecoration(a: Run, b: Run) {
    a.marks == b.marks && a.link == b.link && a.documentRef == b.documentRef
  }

  /** One turn of the merging loop. */
  function Push(merged: seq<Run>, run: Run): seq<Run> {
    var n := |merged|;
    if n > 0 && SameDecoration(merged[n - 1], run)
    then merged[n - 1 := merged[n - 1].(text := merged[n - 1].text + run.text)]
    else merged + [run]
  }

  function Merge(rs: seq<Run>): seq<Run> {
    if rs == [] then [] else Push(Merge(rs[..|rs| - 1]), rs[|rs| - 1])
  }

  function StripRef(ref: Option<Json>): Option<Json> {
    if ref.Some? && Truthy(ref.value) then ref else None
  }

  function Strip(r: Run): Run {
    r.(link := StripRef(r.link), documentRef := StripRef(r.documentRef))
  }

  function StripAll(rs: seq<Run>): seq<Run> {
    seq(|rs|, i requires 0 <= i < |rs| => Strip(rs[i]))
  }

  function Canonical(lib: Library, rs: seq<Run>): seq<Run> {
    StripAll(Merge(PrepareAll(lib, rs)))
  }

  // ------------------------------------------------------- the loops

  method MarksEqual(a: Option<seq<Mark>>, b: Option<seq<Mark>>) returns (same: bool)
    ensures same <==> a == b
  {
    if a.None? && b.None? {
      return true;
    }
    if a.None? || b.None? {
      return false;
    }
    if |a.value| != |b.value| {
      return false;
    }
    for i := 0 to |a.value|
      invariant forall k :: 0 <= k < i ==> a.value[k] == b.value[k]
    {
      if a.value[i].kind != b.value[i].kind {
        return false;
      }
    }
    assert a.value == b.value;
    return true;
  }

  /** `runs.map` reads the text of every child first: a child without one throws. */
  function RunsOf(items: seq<Item>): Result<seq<Run>, TypeError> {
    if items == [] then Ok([])
    else
      var before := RunsOf(items[..|items| - 1]);
      var item := items[|items| - 1];
      if before.Err? then before
      else if item.text.None? then Err(TypeError)
      else Ok(before.value + [Run(item.text.value, item.marks, item.link, item.documentRef)])
  }

  function TryInline(lib: Library, items: seq<Item>): Result<seq<Run>, TypeError> {
    var runs := RunsOf(items);
    if runs.Err? then runs else Ok(Canonical(lib, runs.value))
  }

  lemma {:induction false} FirstThrowDecides(items: seq<Item>, i: int)
    requires 0 <= i < |items| && RunsOf(items[..i]).Ok? && items[i].text.None?
    ensures RunsOf(items) == Err(TypeError)
  {
    var n := |items| - 1;
    if i < n {
      assert items[..n][..i] == items[..i];
      FirstThrowDecides(items[..n], i);
    }
  }

  method CanonicalizeInlineContent(lib: Library, items: seq<Item>) returns (out: Result<seq<Run>, TypeError>)
    ensures out == TryInline(lib, items)
  {
    var sorted: seq<Run> := [];
    for i := 0 to |items|
      invariant RunsOf(items[..i]).Ok? && sorted == PrepareAll(lib, RunsOf(items[..i]).value)
    {
      var item := items[i];
      if item.text.None? {
        FirstThrowDecides(items, i);
        return Err(TypeError);
      }
      var run := Run(item.text.value, item.marks, item.link, item.documentRef);
      sorted := sorted + [Prepare(lib, run)];
      assert items[..i + 1][..i] == items[..i];
    }
    assert items[..|items|] == items;
    var merged := MergeRuns(sorted);
    return Ok(StripAll(merged));
  }

  method MergeRuns(sorted: seq<Run>) returns (merged: seq<Run>)
    ensures merged == Merge(sorted)
  {
    merged := [];
    for i := 0 to |sorted|
      invariant merged == Merge(sorted[..i])
    {
      var run := sorted[i];
      var n := |merged|;
      var mergeable := false;
      if n > 0 {
        var last := merged[n - 1];
        var same := MarksEqual(last.marks, run.marks);
        mergeable := same && last.link == run.link && last.documentRef == run.documentRef;
      }
      if mergeable {
        merged := merged[n - 1 := merged[n - 1].(text := merged[n - 1].text + run.text)];
      } else {
        merged := merged + [run];
      }
      assert sorted[..i + 1][..i] == sorted[..i];
    }
    assert sorted[..|sorted|] == sorted;
  }

  // -------------------------------------------------------- decorated text

  /** A character with what decorates it; the order of the marks does not count. */
  datatype Styled = Styled(c: char, marks: Option<multiset<Mark>>, link: Option<Json>, documentRef: Option<Json>)

  ghost function MarksOf(marks: Option<seq<Mark>>): Option<multiset<Mark>> {
    if marks.None? then None else Some(multiset(marks.value))
  }

  ghost function StyleOf(c: char, r: Run): Styled {
    Styled(c, MarksOf(r.marks), StripRef(r.link), StripRef(r.documentRef))
  }

  ghost function StyledChars(r: Run): (s: seq<Styled>)
    ensures |s| == |r.text| && forall i :: 0 <= i < |s| ==> s[i] == StyleOf(r.text[i], r)
  {
    seq(|r.text|, i requires 0 <= i < |r.text| => StyleOf(r.text[i], r))
  }

  ghost function Decorated(rs: seq<Run>): seq<Styled> {
    if rs == [] then [] else Decorated(rs[..|rs| - 1]) + StyledChars(rs[|rs| - 1])
  }

  function NfcAll(lib: Library, rs: seq<Run>): seq<Run> {
    seq(|rs|, i requires 0 <= i < |rs| => rs[i].(text := lib.nfc(rs[i].text)))
  }

  lemma PushKeepsText(merged: seq<Run>, run: Run)
    ensures Decorated(Push(merged, run)) == Decorated(merged) + StyledChars(run)
  {
    var n := |merged|;
    var pushed := Push(merged, run);
    if n > 0 && SameDecoration(merged[n - 1], run) {
      assert pushed[..n - 1] == merged[..n - 1];
      assert StyledChars(pushed[n - 1]) == StyledChars(merged[n - 1]) + StyledChars(run);
    } else {
      assert pushed[..n] == merged;
    }
  }

  lemma {:induction false} MergeKeepsText(rs: seq<Run>)
    ensures Decorated(Merge(rs)) == Decorated(rs)
  {
    if rs != [] {
      MergeKeepsText(rs[..|rs| - 1]);
      PushKeepsText(Merge(rs[..|rs| - 1]), rs[|rs| - 1]);
    }
  }

  /** Runs whose characters look alike one by one make the same decorated text. */
  lemma {:induction false} SameStyledChars(rs: seq<Run>, ss: seq<Run>)
    requires |rs| == |ss| && forall i :: 0 <= i < |rs| ==> StyledChars(rs[i]) == StyledChars(ss[i])
    ensures Decorated(rs) == Decorated(ss)
  {
    if rs != [] {
      SameStyledChars(rs[..|rs| - 1], ss[..|ss| - 1]);
    }
  }

  /** Canonicalising keeps every (normalised) character and its decoration. */
  lemma CanonicalKeepsText(lib: Library, rs: seq<Run>)
    ensures Decorated(Canonical(lib, rs)) == Decorated(NfcAll(lib, rs))
  {
    var prepared := PrepareAll(lib, rs);
    forall i | 0 <= i < |rs| ensures StyledChars(prepared[i]) == StyledChars(NfcAll(lib, rs)[i]) {
      if rs[i].marks.Some? { SortMarksSorts(lib, rs[i].marks.value); }
      assert forall c :: StyleOf(c, prepared[i]) == StyleOf(c, NfcAll(lib, rs)[i]);
    }
    SameStyledChars(prepared, NfcAll(lib, rs));
    MergeKeepsText(prepared);
    var merged := Merge(prepared);
    forall i | 0 <= i < |merged| ensures StyledChars(StripAll(merged)[i]) == StyledChars(merged[i]) {
      assert forall c :: StyleOf(c, StripAll(merged)[i]) == StyleOf(c, merged[i]);
    }
    SameStyledChars(StripAll(merged), merged);
  }

  // ------------------------------------------------------------ normal form

  ghost predicate NoMergeable(rs: seq<Run>) {
    forall i :: 0 < i < |rs| ==> !SameDecoration(rs[i - 1], rs[i])
  }

  ghost predicate NoEmptyText(rs: seq<Run>) {
    forall i :: 0 <= i < |rs| ==> rs[i].text != []
  }

  /** Links and document references are absent or truthy, as the schema demands. */
  ghost predicate RefsTruthy(rs: seq<Run>) {
    forall i :: 0 <= i < |rs| ==> StripRef(rs[i].link) == rs[i].link && StripRef(rs[i].documentRef) == rs[i].documentRef
  }

  ghost predicate MarksSorted(lib: Library, rs: seq<Run>) {
    forall i :: 0 <= i < |rs| ==> SortMarksOf(lib, rs[i].marks) == rs[i].marks
  }

  /** The texts are normalised: for merged texts this is a fact about NFC, which is not closed
      under concatenation. */
  ghost predicate TextsStable(lib: Library, rs: seq<Run>) {
    forall i :: 0 <= i < |rs| ==> lib.nfc(rs[i].text) == rs[i].text
  }

  /** Every run of the merged list carries the decoration of one of the merged runs. */
  lemma {:induction false} MergeShape(rs: seq<Run>)
    ensures NoMergeable(Merge(rs)) && |Merge(rs)| <= |rs|
    ensures rs != [] ==> Merge(rs) != [] && SameDecoration(Merge(rs)[|Merge(rs)| - 1], rs[|rs| - 1])
    ensures forall i :: 0 <= i < |Merge(rs)| ==> exists k :: 0 <= k < |rs| && SameDecoration(Merge(rs)[i], rs[k])
  {
    if rs != [] {
      var n := |rs| - 1;
      MergeShape(rs[..n]);
      var before, after := Merge(rs[..n]), Merge(rs);
      forall i | 0 <= i < |after| ensures exists k :: 0 <= k < |rs| && SameDecoration(after[i], rs[k]) {
        if i < |before| {
          var k :| 0 <= k < n && SameDecoration(before[i], rs[..n][k]);
          assert SameDecoration(after[i], rs[k]);
        } else {
          assert SameDecoration(after[i], rs[n]);
        }
      }
    }
  }

  lemma {:induction false} MergeKeepsNonEmpty(rs: seq<Run>)
    requires NoEmptyText(rs)
    ensures NoEmptyText(Merge(rs))
  {
    if rs != [] { MergeKeepsNonEmpty(rs[..|rs| - 1]); }
  }

  /** A list with no mergeable neighbours stays as it is ... */
  lemma {:induction false} MergeStays(rs: seq<Run>)
    requires NoMergeable(rs)
    ensures Merge(rs) == rs
  {
    if rs != [] {
      var n := |rs| - 1;
      MergeStays(rs[..n]);
      assert rs == rs[..n] + [rs[n]];
      if n > 0 { assert !SameDecoration(rs[n - 1], rs[n]); }
    }
  }

  /** ... any other gets shorter. */
  lemma {:induction false} MergeShrinks(rs: seq<Run>, i: int)
    requires 0 < i < |rs| && SameDecoration(rs[i - 1], rs[i])
    ensures |Merge(rs)| < |rs|
  {
    var n := |rs| - 1;
    MergeShape(rs[..n]);
    if i < n {
      MergeShrinks(rs[..n], i);
    } else {
      var last := Merge(rs[..n])[|Merge(rs[..n])| - 1];
      assert SameDecoration(last, rs[..n][n - 1]);
      assert SameDecoration(last, rs[n]);
    }
  }

  /** The canonical form has sorted marks and truthy references, and for truthy input no two
      neighbours that should have been merged. */
  lemma CanonicalShape(lib: Library, rs: seq<Run>)
    ensures MarksSorted(lib, Canonical(lib, rs)) && RefsTruthy(Canonical(lib, rs))
    ensures RefsTruthy(rs) ==> NoMergeable(Canonical(lib, rs)) && Canonical(lib, rs) == Merge(PrepareAll(lib, rs))
  {
    var prepared := PrepareAll(lib, rs);
    var merged := Merge(prepared);
    MergeShape(prepared);
    forall i | 0 <= i < |merged|
      ensures SortMarksOf(lib, merged[i].marks) == merged[i].marks
      ensures RefsTruthy(rs) ==> Strip(merged[i]) == merged[i]
    {
      var k :| 0 <= k < |prepared| && SameDecoration(merged[i], prepared[k]);
      if rs[k].marks.Some? {
        SortMarksSorts(lib, rs[k].marks.value);
        SortedMarksStay(lib, SortMarks(lib, rs[k].marks.value));
      }
    }
    if RefsTruthy(rs) { assert StripAll(merged) == merged; }
  }

  /** The runs that canonicalising leaves alone are exactly the canonical ones. */
  lemma FixpointIffCanonical(lib: Library, rs: seq<Run>)
    ensures Canonical(lib, rs) == rs
            <==> MarksSorted(lib, rs) && RefsTruthy(rs) && TextsStable(lib, rs) && NoMergeable(rs)
  {
    var prepared := PrepareAll(lib, rs);
    CanonicalShape(lib, rs);
    if Canonical(lib, rs) == rs {
      assert |Merge(prepared)| == |rs|;
      forall i | 0 < i < |rs| ensures !SameDecoration(rs[i - 1], rs[i]) {
        if SameDecoration(prepared[i - 1], prepared[i]) { MergeShrinks(prepared, i); }
      }
      MergeStays(prepared);
      forall i | 0 <= i < |rs| ensures lib.nfc(rs[i].text) == rs[i].text {
        assert Canonical(lib, rs)[i].text == prepared[i].text;
      }
    }
    if MarksSorted(lib, rs) && RefsTruthy(rs) && TextsStable(lib, rs) && NoMergeable(rs) {
      assert prepared == rs;
      MergeStays(rs);
      assert StripAll(rs) == rs;
    }
  }

  // ------------------------------------------------- what merging leaves

  /** A longest stretch of equally decorated neighbours. */
  ghost predicate Stretch(rs: seq<Run>, i: int, j: int) {
    && 0 <= i < j <= |rs|
    && (forall k :: i < k < j ==> SameDecoration(rs[k - 1], rs[k]))
    && (i > 0 ==> !SameDecoration(rs[i - 1], rs[i]))
    && (j < |rs| ==> !SameDecoration(rs[j - 1], rs[j]))
  }

  function Joined(rs: seq<Run>): string {
    if rs == [] then "" else Joined(rs[..|rs| - 1]) + rs[|rs| - 1].text
  }

  /** The texts of every stretch, put together, have the property p. */
  ghost predicate Stretches(rs: seq<Run>, p: string -> bool) {
    forall i, j :: Stretch(rs, i, j) ==> p(Joined(rs[i..j]))
  }

  lemma JoinedSnoc(rs: seq<Run>, i: int)
    requires 0 <= i < |rs|
    ensures var n := |rs| - 1; Joined(rs[i..]) == Joined(rs[..n][i..]) + rs[n].text
  {
    var n := |rs| - 1;
    assert rs[i..][..n - i] == rs[..n][i..];
  }

  lemma StretchGrows(rs: seq<Run>, i: int)
    requires |rs| > 1 && Stretch(rs[..|rs| - 1], i, |rs| - 1) && SameDecoration(rs[|rs| - 2], rs[|rs| - 1])
    ensures Stretch(rs, i, |rs|)
  {
    var n := |rs| - 1;
    forall k | i < k < |rs| ensures SameDecoration(rs[k - 1], rs[k]) {
      if k < n { assert SameDecoration(rs[..n][k - 1], rs[..n][k]); }
    }
    if i > 0 { assert !SameDecoration(rs[..n][i - 1], rs[..n][i]); }
  }

  lemma MergeSnoc(rs: seq<Run>)
    requires rs != []
    ensures var n := |rs| - 1;
            var before := Merge(rs[..n]);
            var m := |before| - 1;
            if n > 0 && SameDecoration(rs[n - 1], rs[n]) then
              && m >= 0 && |Merge(rs)| == m + 1 && Merge(rs)[..m] == before[..m]
              && Merge(rs)[m].text == before[m].text + rs[n].text
            else Merge(rs) == before + [rs[n]]
  {
    var n := |rs| - 1;
    MergeShape(rs[..n]);
    if n > 0 { assert rs[..n][n - 1] == rs[n - 1]; }
  }

  /** The last merged run is the last stretch, the ones before it come from the runs before. */
  lemma {:induction false} LastStretch(rs: seq<Run>) returns (i: nat)
    requires rs != []
    ensures Stretch(rs, i, |rs|) && Merge(rs) != []
    ensures Merge(rs)[|Merge(rs)| - 1].text == Joined(rs[i..])
    ensures Merge(rs)[..|Merge(rs)| - 1] == Merge(rs[..i])
  {
    var n := |rs| - 1;
    MergeSnoc(rs);
    if n > 0 && SameDecoration(rs[n - 1], rs[n]) {
      i := LastStretch(rs[..n]);
      StretchGrows(rs, i);
      JoinedSnoc(rs, i);
      assert rs[..n][..i] == rs[..i];
    } else {
      i := n;
      JoinedSnoc(rs, n);
      assert rs[..n][n..] == [];
    }
  }

  lemma StretchesBefore(rs: seq<Run>, p: string -> bool, n: nat)
    requires Stretch(rs, n, |rs|)
    ensures Stretches(rs, p) <==> Stretches(rs[..n], p) && p(Joined(rs[n..]))
  {
    forall i, j | 0 <= i < j <= n
      ensures Stretch(rs, i, j) <==> Stretch(rs[..n], i, j)
      ensures rs[i..j] == rs[..n][i..j]
    {
      if Stretch(rs[..n], i, j) {
        forall k | i < k < j ensures SameDecoration(rs[k - 1], rs[k]) {
          assert SameDecoration(rs[..n][k - 1], rs[..n][k]);
        }
      }
    }
    forall i, j | Stretch(rs, i, j) && j > n ensures i == n && j == |rs| {
    }
    assert rs[n..|rs|] == rs[n..];
    if Stretches(rs, p) {
      forall i, j | Stretch(rs[..n], i, j) ensures p(Joined(rs[..n][i..j])) {
        assert Stretch(rs, i, j);
      }
    }
    if Stretches(rs[..n], p) && p(Joined(rs[n..])) {
      forall i, j | Stretch(rs, i, j) ensures p(Joined(rs[i..j])) {
        if j <= n { assert Stretch(rs[..n], i, j); }
      }
    }
  }

  ghost predicate EachText(rs: seq<Run>, p: string -> bool) {
    forall i :: 0 <= i < |rs| ==> p(rs[i].text)
  }

  /** The merged texts are the texts of the stretches. */
  lemma {:induction false} MergedTexts(rs: seq<Run>, p: string -> bool)
    ensures EachText(Merge(rs), p) <==> Stretches(rs, p)
    decreases |rs|
  {
    if rs != [] {
      var n := LastStretch(rs);
      MergedTexts(rs[..n], p);
      StretchesBefore(rs, p, n);
      var merged := Merge(rs);
      assert merged == Merge(rs[..n]) + [merged[|merged| - 1]];
    }
  }

  /** Neighbours that agree once their references are brought into the form `norm` were written
      alike before. */
  ghost predicate Apart(rs: seq<Run>, norm: Run -> Run) {
    forall i :: 0 < i < |rs| && SameDecoration(norm(rs[i - 1]), norm(rs[i])) ==> SameDecoration(rs[i - 1], rs[i])
  }

  ghost predicate Distinct(rs: seq<Run>, norm: Run -> Run) {
    forall i :: 0 < i < |rs| ==> !SameDecoration(norm(rs[i - 1]), norm(rs[i]))
  }

  ghost predicate Respects(norm: Run -> Run) {
    forall a, b :: SameDecoration(a, b) ==> SameDecoration(norm(a), norm(b))
  }

  /** Merging leaves neighbours that agree under `norm` exactly when the input has neighbours
      that agree under `norm` alone. */
  lemma {:induction false} MergeApart(rs: seq<Run>, norm: Run -> Run)
    requires Respects(norm)
    ensures Distinct(Merge(rs), norm) <==> Apart(rs, norm)
  {
    if |rs| > 1 {
      var n := |rs| - 1;
      var before, after := Merge(rs[..n]), Merge(rs);
      MergeApart(rs[..n], norm);
      MergeShape(rs[..n]);
      var last := before[|before| - 1];
      assert SameDecoration(last, rs[n - 1]) && SameDecoration(norm(last), norm(rs[n - 1]));
      assert Apart(rs, norm) <==> Apart(rs[..n], norm)
                                  && (SameDecoration(norm(rs[n - 1]), norm(rs[n])) ==> SameDecoration(rs[n - 1], rs[n])) by {
        ApartSnoc(rs, norm);
      }
      if SameDecoration(last, rs[n]) {
        PushAlike(before, rs[n], norm);
      } else {
        assert after == before + [rs[n]];
        DistinctSnoc(before, rs[n], norm);
      }
    } else if |rs| == 1 {
      assert Merge(rs) == rs by { assert Merge(rs[..0]) == []; }
    }
  }

  lemma ApartSnoc(rs: seq<Run>, norm: Run -> Run)
    requires |rs| > 1
    ensures var n := |rs| - 1;
            Apart(rs, norm) <==> Apart(rs[..n], norm)
                                 && (SameDecoration(norm(rs[n - 1]), norm(rs[n])) ==> SameDecoration(rs[n - 1], rs[n]))
  {
    var n := |rs| - 1;
    assert forall i :: 0 <= i < n ==> rs[..n][i] == rs[i];
    if Apart(rs[..n], norm) && (SameDecoration(norm(rs[n - 1]), norm(rs[n])) ==> SameDecoration(rs[n - 1], rs[n])) {
      forall i | 0 < i < |rs| && SameDecoration(norm(rs[i - 1]), norm(rs[i])) ensures SameDecoration(rs[i - 1], rs[i]) {
        if i < n { assert SameDecoration(norm(rs[..n][i - 1]), norm(rs[..n][i])); }
      }
    }
  }

  lemma DistinctSnoc(rs: seq<Run>, r: Run, norm: Run -> Run)
    requires rs != []
    ensures Distinct(rs + [r], norm) <==> Distinct(rs, norm) && !SameDecoration(norm(rs[|rs| - 1]), norm(r))
  {
    var all := rs + [r];
    assert forall i :: 0 <= i < |rs| ==> all[i] == rs[i];
    if Distinct(all, norm) {
      forall i | 0 < i < |rs| ensures !SameDecoration(norm(rs[i - 1]), norm(rs[i])) {
        assert !SameDecoration(norm(all[i - 1]), norm(all[i]));
      }
      assert !SameDecoration(norm(all[|rs| - 1]), norm(all[|rs|]));
    }
  }

  lemma PushAlike(merged: seq<Run>, run: Run, norm: Run -> Run)
    requires Respects(norm) && merged != [] && SameDecoration(merged[|merged| - 1], run)
    ensures Distinct(Push(merged, run), norm) <==> Distinct(merged, norm)
  {
    var pushed := Push(merged, run);
    forall i | 0 <= i < |merged| ensures SameDecoration(norm(pushed[i]), norm(merged[i])) {
      assert SameDecoration(pushed[i], merged[i]);
    }
    forall i | 0 < i < |merged|
      ensures SameDecoration(norm(pushed[i - 1]), norm(pushed[i])) <==> SameDecoration(norm(merged[i - 1]), norm(merged[i]))
    {
    }
  }

  function InNfc(lib: Library): string -> bool {
    t => lib.nfc(t) == t
  }

  /** The normalised texts of every stretch of equally decorated runs are in NFC together. */
  ghost predicate TextsJoin(lib: Library, rs: seq<Run>) {
    Stretches(PrepareAll(lib, rs), InNfc(lib))
  }

  /** No neighbours differ in a falsy reference beside an absent or another falsy one alone. */
  ghost predicate RefsAlike(lib: Library, rs: seq<Run>) {
    Apart(PrepareAll(lib, rs), Strip)
  }

  lemma StableIffTextsJoin(lib: Library, rs: seq<Run>)
    ensures TextsStable(lib, Canonical(lib, rs)) <==> TextsJoin(lib, rs)
  {
    var merged, once := Merge(PrepareAll(lib, rs)), Canonical(lib, rs);
    MergedTexts(PrepareAll(lib, rs), InNfc(lib));
    assert forall i :: 0 <= i < |merged| ==> once[i].text == merged[i].text;
    if EachText(merged, InNfc(lib)) {
      forall i | 0 <= i < |once| ensures lib.nfc(once[i].text) == once[i].text {
        assert InNfc(lib)(merged[i].text);
      }
    }
  }

  lemma LeftoverIffRefsAlike(lib: Library, rs: seq<Run>)
    ensures NoMergeable(Canonical(lib, rs)) <==> RefsAlike(lib, rs)
  {
    var merged, once := Merge(PrepareAll(lib, rs)), Canonical(lib, rs);
    MergeApart(PrepareAll(lib, rs), Strip);
    assert forall i :: 0 <= i < |merged| ==> once[i] == Strip(merged[i]);
    assert NoMergeable(once) <==> Distinct(merged, Strip);
  }

  /** Canonicalising twice is canonicalising once exactly for inputs whose stretches are in NFC
      when put together and which do not mix falsy with absent references. */
  lemma IdempotentIff(lib: Library, rs: seq<Run>)
    ensures Canonical(lib, Canonical(lib, rs)) == Canonical(lib, rs) <==> TextsJoin(lib, rs) && RefsAlike(lib, rs)
    ensures RefsTruthy(rs) ==> RefsAlike(lib, rs)
  {
    CanonicalShape(lib, rs);
    FixpointIffCanonical(lib, Canonical(lib, rs));
    StableIffTextsJoin(lib, rs);
    LeftoverIffRefsAlike(lib, rs);
  }

  ghost predicate Tidy(lib: Library, rs: seq<Run>) {
    MarksSorted(lib, rs) && RefsTruthy(rs) && NoMergeable(rs) && NoEmptyText(rs)
  }

  /** The style of a character tells the decoration of its run. */
  ghost predicate Telling(rs: seq<Run>, ss: seq<Run>) {
    forall i, j, c, d {:trigger StyleOf(c, rs[i]), StyleOf(d, ss[j])} ::
      0 <= i < |rs| && 0 <= j < |ss| && StyleOf(c, rs[i]) == StyleOf(d, ss[j]) ==> SameDecoration(rs[i], ss[j])
  }

  /** The comparator tells the marks within each run apart. */
  ghost predicate KindsApart(lib: Library, rs: seq<Run>) {
    forall i :: 0 <= i < |rs| && rs[i].marks.Some? ==> Separates(lib, rs[i].marks.value)
  }

  lemma CanonicalKindsApart(lib: Library, rs: seq<Run>)
    requires KindsApart(lib, rs)
    ensures KindsApart(lib, Canonical(lib, rs))
  {
    var prepared := PrepareAll(lib, rs);
    var merged, once := Merge(prepared), Canonical(lib, rs);
    MergeShape(prepared);
    forall i | 0 <= i < |once| && once[i].marks.Some? ensures Separates(lib, once[i].marks.value) {
      var k :| 0 <= k < |prepared| && SameDecoration(merged[i], prepared[k]);
      SortMarksSorts(lib, rs[k].marks.value);
      SameMarksSeparate(lib, rs[k].marks.value, once[i].marks.value);
    }
  }

  lemma TidyRunsTell(lib: Library, rs: seq<Run>, ss: seq<Run>)
    requires KindsApart(lib, rs) && MarksSorted(lib, rs) && MarksSorted(lib, ss) && RefsTruthy(rs) && RefsTruthy(ss)
    ensures Telling(rs, ss) && Telling(ss, rs)
  {
    forall i, j, c, d | 0 <= i < |rs| && 0 <= j < |ss| && StyleOf(c, rs[i]) == StyleOf(d, ss[j])
      ensures SameDecoration(rs[i], ss[j]) && SameDecoration(ss[j], rs[i])
    {
      if rs[i].marks.Some? {
        SortMarksIffSameMarks(lib, rs[i].marks.value, ss[j].marks.value);
      }
    }
  }

  lemma SplitLast(rs: seq<Run>)
    requires rs != []
    ensures var last := rs[|rs| - 1];
            |Decorated(rs)| >= |last.text| && Decorated(rs)[..|Decorated(rs)| - |last.text|] == Decorated(rs[..|rs| - 1])
  {
    assert Decorated(rs) == Decorated(rs[..|rs| - 1]) + StyledChars(rs[|rs| - 1]);
  }

  lemma LastCharacter(rs: seq<Run>, k: int)
    requires rs != [] && 0 <= k < |rs[|rs| - 1].text|
    ensures |Decorated(rs)| >= |rs[|rs| - 1].text|
    ensures Decorated(rs)[|Decorated(rs)| - |rs[|rs| - 1].text| + k] == StyleOf(rs[|rs| - 1].text[k], rs[|rs| - 1])
  {
    assert Decorated(rs) == Decorated(rs[..|rs| - 1]) + StyledChars(rs[|rs| - 1]);
  }

  lemma BeforeLast(rest: seq<Run>, last: Run, text: seq<Styled>, cut: nat)
    requires rest != [] && rest[|rest| - 1] == last && last.text != []
    requires cut <= |text| && text[..cut] == Decorated(rest)
    ensures cut > 0 && text[cut - 1] == StyleOf(last.text[|last.text| - 1], last)
  {
    LastCharacter(rest, |last.text| - 1);
    assert text[cut - 1] == text[..cut][cut - 1];
  }

  /** The character before the last run belongs to the run before it. */
  lemma CharacterBefore(rs: seq<Run>)
    requires NoEmptyText(rs) && rs != [] && |Decorated(rs)| > |rs[|rs| - 1].text|
    ensures |rs| > 1
    ensures Decorated(rs)[|Decorated(rs)| - |rs[|rs| - 1].text| - 1]
            == StyleOf(rs[|rs| - 2].text[|rs[|rs| - 2].text| - 1], rs[|rs| - 2])
  {
    var n := |rs| - 1;
    SplitLast(rs);
    if n > 0 {
      BeforeLast(rs[..n], rs[n - 1], Decorated(rs), |Decorated(rs)| - |rs[n].text|);
    }
  }

  lemma {:induction false} LastRunsAgree(rs: seq<Run>, ss: seq<Run>)
    requires Telling(rs, ss) && NoEmptyText(rs) && NoEmptyText(ss) && Decorated(rs) == Decorated(ss)
    requires rs != [] && ss != []
    ensures SameDecoration(rs[|rs| - 1], ss[|ss| - 1])
  {
    var n, m := |rs| - 1, |ss| - 1;
    LastCharacter(rs, |rs[n].text| - 1);
    LastCharacter(ss, |ss[m].text| - 1);
    assert StyleOf(rs[n].text[|rs[n].text| - 1], rs[n]) == StyleOf(ss[m].text[|ss[m].text| - 1], ss[m]);
  }

  /** A last run reaches back as far as its decoration does. */
  lemma LastRunNoLonger(rs: seq<Run>, ss: seq<Run>)
    requires Telling(rs, ss) && NoEmptyText(rs) && NoMergeable(rs) && NoEmptyText(ss) && Decorated(rs) == Decorated(ss)
    requires rs != [] && ss != []
    ensures |ss[|ss| - 1].text| <= |rs[|rs| - 1].text|
  {
    var n, m := |rs| - 1, |ss| - 1;
    LastRunsAgree(rs, ss);
    SplitLast(ss);
    if |ss[m].text| > |rs[n].text| {
      CharacterBefore(rs);
      var k := |ss[m].text| - |rs[n].text| - 1;
      // The character at k would carry the decoration of both rs[n - 1] and rs[n].
      LastCharacter(ss, k);
    }
  }

  lemma {:induction false} SameLastText(rs: seq<Run>, ss: seq<Run>)
    requires rs != [] && ss != [] && Decorated(rs) == Decorated(ss)
    requires |rs[|rs| - 1].text| == |ss[|ss| - 1].text|
    ensures rs[|rs| - 1].text == ss[|ss| - 1].text
    ensures Decorated(rs[..|rs| - 1]) == Decorated(ss[..|ss| - 1])
  {
    var a, b := rs[|rs| - 1], ss[|ss| - 1];
    forall k | 0 <= k < |a.text| ensures a.text[k] == b.text[k] {
      LastCharacter(rs, k);
      LastCharacter(ss, k);
    }
    SplitLast(rs);
    SplitLast(ss);
  }

  lemma TellingPrefix(rs: seq<Run>, ss: seq<Run>, n: nat, m: nat)
    requires Telling(rs, ss) && n <= |rs| && m <= |ss|
    ensures Telling(rs[..n], ss[..m])
  {
    forall i, j, c, d | 0 <= i < n && 0 <= j < m && StyleOf(c, rs[..n][i]) == StyleOf(d, ss[..m][j])
      ensures SameDecoration(rs[..n][i], ss[..m][j])
    {
      assert StyleOf(c, rs[i]) == StyleOf(d, ss[j]);
    }
  }

  lemma NoTextNoRuns(rs: seq<Run>)
    requires NoEmptyText(rs) && Decorated(rs) == []
    ensures rs == []
  {
    if rs != [] { SplitLast(rs); }
  }

  lemma {:induction false} TidyUnique(rs: seq<Run>, ss: seq<Run>)
    requires Telling(rs, ss) && Telling(ss, rs) && Decorated(rs) == Decorated(ss)
    requires NoEmptyText(rs) && NoMergeable(rs) && NoEmptyText(ss) && NoMergeable(ss)
    ensures rs == ss
    decreases |rs|
  {
    if rs == [] {
      NoTextNoRuns(ss);
    } else if ss == [] {
      NoTextNoRuns(rs);
    } else {
      var n, m := |rs| - 1, |ss| - 1;
      SameLastRun(rs, ss);
      TellingPrefix(rs, ss, n, m);
      TellingPrefix(ss, rs, m, n);
      TidyPrefix(rs, n);
      TidyPrefix(ss, m);
      TidyUnique(rs[..n], ss[..m]);
      assert rs == rs[..n] + [rs[n]] && ss == ss[..m] + [ss[m]];
    }
  }

  lemma TidyPrefix(rs: seq<Run>, n: nat)
    requires NoEmptyText(rs) && NoMergeable(rs) && n <= |rs|
    ensures NoEmptyText(rs[..n]) && NoMergeable(rs[..n])
  {
  }

  lemma SameLastRun(rs: seq<Run>, ss: seq<Run>)
    requires Telling(rs, ss) && Telling(ss, rs) && Decorated(rs) == Decorated(ss) && rs != [] && ss != []
    requires NoEmptyText(rs) && NoMergeable(rs) && NoEmptyText(ss) && NoMergeable(ss)
    ensures rs[|rs| - 1] == ss[|ss| - 1] && Decorated(rs[..|rs| - 1]) == Decorated(ss[..|ss| - 1])
  {
    LastRunsAgree(rs, ss);
    LastRunNoLonger(rs, ss);
    LastRunNoLonger(ss, rs);
    SameLastText(rs, ss);
  }

  predicate NonEmpty(t: string) {
    t != ""
  }

  /** No stretch of equally decorated runs is empty. */
  ghost predicate NoEmptyStretch(lib: Library, rs: seq<Run>) {
    Stretches(PrepareAll(lib, rs), NonEmpty)
  }

  lemma CanonicalIsTidy(lib: Library, rs: seq<Run>)
    requires RefsTruthy(rs)
    ensures NoEmptyStretch(lib, rs) <==> Tidy(lib, Canonical(lib, rs))
    ensures NoEmptyStretch(lib, rs) <==> NoEmptyText(Canonical(lib, rs))
  {
    CanonicalShape(lib, rs);
    MergedTexts(PrepareAll(lib, rs), NonEmpty);
  }

  /** The normal form theorem: another run list has the same canonical form exactly when it
      denotes the same decorated text, mark for mark and character for character, and has no
      empty stretch either. */
  lemma CanonicalIffSameText(lib: Library, rs: seq<Run>, ss: seq<Run>)
    requires KindsApart(lib, rs) && RefsTruthy(rs) && RefsTruthy(ss) && NoEmptyStretch(lib, rs)
    ensures Canonical(lib, rs) == Canonical(lib, ss)
            <==> NoEmptyStretch(lib, ss) && Decorated(NfcAll(lib, rs)) == Decorated(NfcAll(lib, ss))
  {
    CanonicalKeepsText(lib, rs);
    CanonicalKeepsText(lib, ss);
    CanonicalIsTidy(lib, rs);
    CanonicalIsTidy(lib, ss);
    if NoEmptyStretch(lib, ss) && Decorated(NfcAll(lib, rs)) == Decorated(NfcAll(lib, ss)) {
      CanonicalKindsApart(lib, rs);
      TidyRunsTell(lib, Canonical(lib, rs), Canonical(lib, ss));
      TidyUnique(Canonical(lib, rs), Canonical(lib, ss));
    }
  }

  /** The order in which marks are listed does not matter, whatever the texts are. */
  lemma MarkOrderIgnored(lib: Library, rs: seq<Run>, ss: seq<Run>)
    requires KindsApart(lib, rs) && |rs| == |ss|
    requires forall i :: 0 <= i < |rs| ==>
               rs[i].(marks := ss[i].marks) == ss[i] && MarksOf(rs[i].marks) == MarksOf(ss[i].marks)
    ensures Canonical(lib, rs) == Canonical(lib, ss)
  {
    forall i | 0 <= i < |rs| ensures Prepare(lib, rs[i]) == Prepare(lib, ss[i]) {
      if rs[i].marks.Some? { SortMarksIffSameMarks(lib, rs[i].marks.value, ss[i].marks.value); }
    }
    assert PrepareAll(lib, rs) == PrepareAll(lib, ss);
  }

  // ---------------------------------------------------------- its boundary

  function DropEmpty(lib: Library, rs: seq<Run>): seq<Run> {
    if rs == [] then []
    else DropEmpty(lib, rs[..|rs| - 1]) + if lib.nfc(rs[|rs| - 1].text) == [] then [] else [rs[|rs| - 1]]
  }

  lemma NfcSnoc(lib: Library, rs: seq<Run>, r: Run)
    ensures NfcAll(lib, rs + [r]) == NfcAll(lib, rs) + [r.(text := lib.nfc(r.text))]
    ensures Decorated(NfcAll(lib, rs + [r])) == Decorated(NfcAll(lib, rs)) + StyledChars(r.(text := lib.nfc(r.text)))
  {
    var all := NfcAll(lib, rs + [r]);
    assert all == NfcAll(lib, rs) + [r.(text := lib.nfc(r.text))];
    assert all[..|all| - 1] == NfcAll(lib, rs);
  }

  lemma {:induction false} DropEmptyKeepsText(lib: Library, rs: seq<Run>)
    ensures Decorated(NfcAll(lib, DropEmpty(lib, rs))) == Decorated(NfcAll(lib, rs))
  {
    if rs != [] {
      var n := |rs| - 1;
      DropEmptyKeepsText(lib, rs[..n]);
      assert rs == rs[..n] + [rs[n]];
      NfcSnoc(lib, rs[..n], rs[n]);
      if lib.nfc(rs[n].text) == [] {
        assert DropEmpty(lib, rs) == DropEmpty(lib, rs[..n]);
      } else {
        NfcSnoc(lib, DropEmpty(lib, rs[..n]), rs[n]);
      }
    }
  }

  lemma {:induction false} DropEmptyShape(lib: Library, rs: seq<Run>)
    ensures forall i :: 0 <= i < |DropEmpty(lib, rs)| ==>
              lib.nfc(DropEmpty(lib, rs)[i].text) != [] && DropEmpty(lib, rs)[i] in rs
  {
    if rs != [] {
      DropEmptyShape(lib, rs[..|rs| - 1]);
    }
  }

  /** Empty runs, which the schema allows, do show: the canonical form is the normal form of
      the decorated text exactly when no stretch of equally decorated runs is empty. */
  lemma NormalIffNoEmptyRun(lib: Library, rs: seq<Run>)
    requires KindsApart(lib, rs) && RefsTruthy(rs)
    ensures Canonical(lib, rs) == Canonical(lib, DropEmpty(lib, rs)) <==> NoEmptyStretch(lib, rs)
  {
    var full := DropEmpty(lib, rs);
    DropEmptyKeepsText(lib, rs);
    DropEmptyShape(lib, rs);
    forall i | 0 <= i < |full| ensures PrepareAll(lib, full)[i].text != [] {
      assert lib.nfc(full[i].text) != [];
    }
    MergeKeepsNonEmpty(PrepareAll(lib, full));
    CanonicalIsTidy(lib, full);
    CanonicalIsTidy(lib, rs);
    if NoEmptyStretch(lib, rs) {
      CanonicalIffSameText(lib, rs, full);
    }
  }
}
