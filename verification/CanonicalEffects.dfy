/** What canonicalizeMDDM does to each block, in the terms of the schema: which kinds hold inline
    content, what comes out of them, what stays. */
module CanonicalEffects {
  import opened Prelude
  import opened JsonKeys
  import opened InlineContent
  import opened DocumentBlocks
  import opened DocumentNormalForm

  // ------------------------------------------------------------ mark order

  predicate Known(kind: string) {
    kind == "bold" || kind == "code" || kind == "italic" || kind == "strike" || kind == "underline"
  }

  /** One key comes before another where they first differ, or where it ends. */
  ghost predicate Precedes(a: string, b: string) {
    exists k: nat ::
      && k <= |a| && k < |b| && a[..k] == b[..k]
      && (k == |a| || a[k] < b[k])
  }

  lemma PrecedesTail(a: string, b: string)
    requires a != [] && b != [] && a[0] == b[0]
    ensures Precedes(a[1..], b[1..]) ==> Precedes(a, b)
  {
    if k: nat :| k <= |a[1..]| && k < |b[1..]| && a[1..][..k] == b[1..][..k] && (k == |a[1..]| || a[1..][k] < b[1..][k]) {
      assert a[..k + 1] == [a[0]] + a[1..][..k] && b[..k + 1] == [b[0]] + b[1..][..k];
      assert k + 1 == |a| || a[k + 1] < b[k + 1];
    }
  }

  lemma TailPrecedes(a: string, b: string)
    requires a != [] && b != [] && a[0] == b[0]
    ensures Precedes(a, b) ==> Precedes(a[1..], b[1..])
  {
    if k: nat :| k <= |a| && k < |b| && a[..k] == b[..k] && (k == |a| || a[k] < b[k]) {
      assert k > 0;
      assert a[1..][..k - 1] == a[..k][1..] && b[1..][..k - 1] == b[..k][1..];
      assert k - 1 == |a[1..]| || a[1..][k - 1] < b[1..][k - 1];
    }
  }

  lemma HeadsDecide(a: string, b: string)
    requires a == [] || b == [] || a[0] != b[0]
    ensures Precedes(a, b) <==> b != [] && (a == [] || a[0] < b[0])
  {
    assert a[..0] == b[..0];
  }

  lemma {:induction false} BeforeIff(a: string, b: string)
    ensures Before(a, b) <==> Precedes(a, b)
  {
    if a != [] && b != [] && a[0] == b[0] {
      BeforeIff(a[1..], b[1..]);
      PrecedesTail(a, b);
      TailPrecedes(a, b);
    } else {
      HeadsDecide(a, b);
    }
  }

  /** The known kinds in alphabetical order, then the others as localeCompare has them. */
  ghost predicate InOrder(lib: Library, ms: seq<Mark>) {
    forall i, j :: 0 <= i < j < |ms| ==> MayPrecede(lib, ms[i].kind, ms[j].kind)
  }

  ghost predicate MayPrecede(lib: Library, a: string, b: string) {
    if Known(b) then Known(a) && (a == b || Precedes(a, b))
    else Known(a) || lib.collate(a) <= lib.collate(b)
  }

  lemma FirstLetterDecides(a: string, b: string)
    requires a != [] && b != [] && a[0] != b[0]
    ensures Precedes(a, b) <==> a[0] < b[0]
  {
    HeadsDecide(a, b);
  }

  lemma KnownByLetter(kind: string)
    requires Known(kind)
    ensures kind != []
    ensures (kind[0] == 'b' <==> IndexOf(kind) == 0) && (kind[0] == 'c' <==> IndexOf(kind) == 1)
    ensures (kind[0] == 'i' <==> IndexOf(kind) == 2) && (kind[0] == 's' <==> IndexOf(kind) == 3)
    ensures (kind[0] == 'u' <==> IndexOf(kind) == 4) && 0 <= IndexOf(kind) < 5
  {
  }

  lemma CompareIff(lib: Library, a: Mark, b: Mark)
    ensures Compare(lib, a, b) <= 0 <==> MayPrecede(lib, a.kind, b.kind)
  {
    IndexOfIsPosition(a.kind);
    IndexOfIsPosition(b.kind);
    if Known(a.kind) && Known(b.kind) {
      KnownByLetter(a.kind);
      KnownByLetter(b.kind);
      if a.kind != b.kind { FirstLetterDecides(a.kind, b.kind); }
    }
  }

  /** Sorting puts the marks in that order and loses none. */
  lemma SortedInOrder(lib: Library, ms: seq<Mark>)
    ensures InOrder(lib, SortMarks(lib, ms)) && multiset(SortMarks(lib, ms)) == multiset(ms)
  {
    SortMarksSorts(lib, ms);
    var sorted := SortMarks(lib, ms);
    forall i, j | 0 <= i < j < |sorted| ensures MayPrecede(lib, sorted[i].kind, sorted[j].kind) {
      CompareIff(lib, sorted[i], sorted[j]);
    }
  }

  // ------------------------------------------------------------------ keys

  ghost predicate KeysAscend(j: Json) {
    match j
    case Arr(items) => forall i :: 0 <= i < |items| ==> KeysAscend(items[i])
    case Obj(fields) =>
      && (forall i, k :: 0 <= i < k < |fields| ==> Precedes(fields[i].key, fields[k].key))
      && forall i :: 0 <= i < |fields| ==> KeysAscend(fields[i].value)
    case _ => true
  }

  lemma {:induction false} SortKeysAscend(j: Json)
    requires WellFormed(j)
    ensures KeysAscend(SortKeys(j))
  {
    match j
    case Arr(items) =>
      forall i | 0 <= i < |items| ensures KeysAscend(SortKeys(items[i])) {
        SortKeysAscend(items[i]);
      }
    case Obj(fields) =>
      var fs := SortedValues(fields);
      var gs := SortFields(fs);
      SortFieldsSorts(fs);
      assert SortKeys(j) == Obj(gs);
      forall i | 0 <= i < |fs| ensures KeysAscend(fs[i].value) {
        SortKeysAscend(fields[i].value);
      }
      forall i | 0 <= i < |gs| ensures KeysAscend(gs[i].value) {
        assert gs[i] in fs;
      }
      forall i, k | 0 <= i < k < |gs| ensures Precedes(gs[i].key, gs[k].key) {
        BeforeIff(gs[i].key, gs[k].key);
      }
    case _ =>
  }

  /** The same value with its keys in order. */
  ghost predicate Sorted(j: Json, out: Json) {
    Denote(out) == Denote(j) && KeysAscend(out)
  }

  lemma SortKeysSorted(j: Json)
    requires WellFormed(j)
    ensures Sorted(j, SortKeys(j))
  {
    SortKeysKeepsValue(j);
    SortKeysAscend(j);
  }

  // ---------------------------------------------------------------- blocks

  /** The kinds whose children are runs of text. */
  predicate TextKind(kind: string) {
    || kind == "paragraph" || kind == "heading" || kind == "bulletListItem" || kind == "numberedListItem"
    || kind == "dataTableCell" || kind == "field"
  }

  lemma InlineParentsAre(kind: string)
    ensures kind in INLINE_PARENTS <==> TextKind(kind)
  {
  }

  ghost predicate SortedRef(ref: Option<Json>, out: Option<Json>) {
    (ref.None? && out.None?) || (ref.Some? && out.Some? && Sorted(ref.value, out.value))
  }

  /** Sorted marks, references that stand for something with their keys in order. */
  ghost predicate Neat(lib: Library, r: Run) {
    && (r.marks.Some? ==> InOrder(lib, r.marks.value))
    && (r.link.Some? ==> Truthy(r.link.value) && KeysAscend(r.link.value))
    && (r.documentRef.Some? ==> Truthy(r.documentRef.value) && KeysAscend(r.documentRef.value))
  }

  /** Inline content that came out says what the normalised input says, run by run in order, and
      has no two neighbours of one decoration unless their references were written differently. */
  ghost predicate TurnedText(lib: Library, rs: seq<Run>, out: seq<Run>) {
    && Says(out) == Says(NfcAll(lib, rs))
    && (forall i :: 0 <= i < |out| ==> Neat(lib, out[i]))
    && (WrittenAlike(lib, rs) <==>
          forall i :: 0 < i < |out| ==>
            !(&& out[i - 1].marks == out[i].marks && out[i - 1].link == out[i].link
              && out[i - 1].documentRef == out[i].documentRef))
  }

  /** Runs under any other kind stay as they are but for the order of keys. */
  ghost predicate KeptRuns(rs: seq<Run>, out: seq<Run>) {
    && |out| == |rs|
    && forall i :: 0 <= i < |rs| ==>
         && out[i].text == rs[i].text && out[i].marks == rs[i].marks
         && SortedRef(rs[i].link, out[i].link) && SortedRef(rs[i].documentRef, out[i].documentRef)
  }

  ghost predicate TurnedLabel(lib: Library, kind: string, s: Option<string>, out: Option<string>) {
    out == if kind == "code" || s.None? || s.value == "" then s else Some(lib.nfc(s.value))
  }

  ghost predicate TurnedProps(lib: Library, kind: string, props: Option<Props>, out: Option<Props>) {
    || (props.None? && out.None?)
    || (&& props.Some? && out.Some? && Sorted(props.value.rest, out.value.rest)
        && TurnedLabel(lib, kind, props.value.title, out.value.title)
        && TurnedLabel(lib, kind, props.value.labelText, out.value.labelText))
  }

  /** What becomes of a block, at every depth. */
  ghost predicate Turned(lib: Library, b: Block, out: Block)
    decreases b
  {
    && out.kind == b.kind && Sorted(b.rest, out.rest) && TurnedProps(lib, b.kind, b.props, out.props)
    && (match b.children
        case Absent => out.children.Absent?
        case Runs(rs) =>
          out.children.Runs? && if TextKind(b.kind) then TurnedText(lib, rs, out.children.runs) else KeptRuns(rs, out.children.runs)
        case Blocks(blocks) =>
          && out.children.Blocks? && |out.children.blocks| == |blocks|
          && forall i :: 0 <= i < |blocks| ==> Turned(lib, blocks[i], out.children.blocks[i]))
  }

  /** A block with blocks for children where runs belong, or with such a block below it. */
  ghost predicate Throws(b: Block) {
    b.children.Blocks? &&
    if TextKind(b.kind) then b.children.blocks != []
    else exists i :: 0 <= i < |b.children.blocks| && Throws(b.children.blocks[i])
  }

  lemma {:induction false} ThrowsOrRenders(b: Block)
    ensures Throws(b) <==> !Renders(b)
  {
    InlineParentsAre(b.kind);
    if b.children.Blocks? {
      forall i | 0 <= i < |b.children.blocks| ensures Throws(b.children.blocks[i]) <==> !Renders(b.children.blocks[i]) {
        ThrowsOrRenders(b.children.blocks[i]);
      }
    }
  }

  lemma RefsOut(lib: Library, rs: seq<Run>, i: int)
    requires RunsWellFormed(rs) && 0 <= i < |FullInline(lib, rs)|
    ensures Neat(lib, FullInline(lib, rs)[i])
  {
    var once := Canonical(lib, rs);
    var k := CanonicalRefs(lib, rs, i);
    assert RefWellFormed(rs[k].link) && RefWellFormed(rs[k].documentRef);
    if once[i].link.Some? { SortKeysAscend(once[i].link.value); }
    if once[i].documentRef.Some? { SortKeysAscend(once[i].documentRef.value); }
    FullInlineShape(lib, rs);
    CanonicalShape(lib, rs);
    assert SortMarksOf(lib, once[i].marks) == once[i].marks;
    if once[i].marks.Some? { SortedInOrder(lib, once[i].marks.value); }
  }

  lemma InlineIsTurned(lib: Library, rs: seq<Run>)
    requires RunsWellFormed(rs)
    ensures TurnedText(lib, rs, FullInline(lib, rs))
  {
    FullInlineSays(lib, rs);
    LeftoverIffWrittenApart(lib, rs);
    forall i | 0 <= i < |FullInline(lib, rs)| ensures Neat(lib, FullInline(lib, rs)[i]) {
      RefsOut(lib, rs, i);
    }
  }

  lemma SortRunsKeep(rs: seq<Run>)
    requires RunsWellFormed(rs)
    ensures KeptRuns(rs, SortRuns(rs))
  {
    forall i | 0 <= i < |rs|
      ensures SortedRef(rs[i].link, SortRef(rs[i].link)) && SortedRef(rs[i].documentRef, SortRef(rs[i].documentRef))
    {
      if rs[i].link.Some? { SortKeysSorted(rs[i].link.value); }
      if rs[i].documentRef.Some? { SortKeysSorted(rs[i].documentRef.value); }
    }
  }

  lemma {:induction false} BlockIsTurned(lib: Library, b: Block)
    requires Renders(b) && BlockWellFormed(b)
    ensures Turned(lib, b, FullBlock(lib, b))
    decreases b
  {
    InlineParentsAre(b.kind);
    SortKeysSorted(b.rest);
    if b.props.Some? { SortKeysSorted(b.props.value.rest); }
    match b.children
    case Absent =>
    case Runs(rs) => if TextKind(b.kind) { InlineIsTurned(lib, rs); } else { SortRunsKeep(rs); }
    case Blocks(blocks) =>
      if !TextKind(b.kind) {
        var out := FullBlocks(lib, b);
        forall i | 0 <= i < |blocks| ensures Turned(lib, blocks[i], out[i]) {
          BlockIsTurned(lib, blocks[i]);
        }
      }
  }

  /** canonicalizeMDDM throws exactly where blocks stand in place of runs; otherwise every block
      turns into what it should, the version and the template reference keep their values, and a
      missing reference becomes null. */
  lemma CanonicalizeTurns(lib: Library, e: Envelope)
    requires EnvelopeWellFormed(e)
    ensures var blocks := if e.blocks.Some? then e.blocks.value else [];
            var out := CanonicalizeMDDM(lib, e);
            && (out.Err? <==> exists i :: 0 <= i < |blocks| && Throws(blocks[i]))
            && (out.Ok? ==>
                  && Sorted(e.version, out.value.version)
                  && out.value.templateRef.Some?
                  && Sorted(if e.templateRef.Some? then e.templateRef.value else Null, out.value.templateRef.value)
                  && out.value.blocks.Some? && |out.value.blocks.value| == |blocks|
                  && forall i :: 0 <= i < |blocks| ==> Turned(lib, blocks[i], out.value.blocks.value[i]))
  {
    var blocks := BlocksOf(e);
    ThrowsIff(lib, e);
    forall i | 0 <= i < |blocks| ensures Throws(blocks[i]) <==> !Renders(blocks[i]) {
      ThrowsOrRenders(blocks[i]);
    }
    SortKeysSorted(e.version);
    if e.templateRef.Some? { SortKeysSorted(e.templateRef.value); }
    if AllRender(blocks) {
      forall i | 0 <= i < |blocks| ensures Turned(lib, blocks[i], FullBlock(lib, blocks[i])) {
        BlockIsTurned(lib, blocks[i]);
      }
    }
  }
}
