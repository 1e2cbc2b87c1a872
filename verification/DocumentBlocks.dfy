/** canonicalizeBlock and canonicalizeMDDM over whole block trees: inline content put in
    normal form, titles normalised, object keys sorted. */
module DocumentBlocks {
  import opened Prelude
  import opened JsonKeys
  import opened InlineContent

  // `labelText` is the property the source calls label, a reserved word here.
  datatype Props = Props(title: Option<string>, labelText: Option<string>, rest: Json)

  datatype Children = Absent | Runs(runs: seq<Run>) | Blocks(blocks: seq<Block>)

  /** `rest` holds the fields the canonicaliser only sorts: id and template_block_id. */
  datatype Block = Block(kind: string, props: Option<Props>, children: Children, rest: Json)

  datatype Envelope = Envelope(version: Json, blocks: Option<seq<Block>>, templateRef: Option<Json>)

  const INLINE_PARENTS: set<string> :=
    {"paragraph", "heading", "bulletListItem", "numberedListItem", "dataTableCell", "field"}

  // ------------------------------------------------------------- one block

  function NfcIfTruthy(lib: Library, s: Option<string>): Option<string> {
    if s.Some? && s.value != "" then Some(lib.nfc(s.value)) else s
  }

  function NormaliseProps(lib: Library, kind: string, props: Option<Props>): Option<Props> {
    if kind == "code" || props.None? then props
    else Some(props.value.(title := NfcIfTruthy(lib, props.value.title), labelText := NfcIfTruthy(lib, props.value.labelText)))
  }

  /** The children as canonicalizeInlineContent finds them: a block has no text. */
  function ItemsOf(children: Children): seq<Item> {
    match children
    case Absent => []
    case Runs(runs) =>
      seq(|runs|, i requires 0 <= i < |runs| =>
        Item(Some(runs[i].text), runs[i].marks, runs[i].link, runs[i].documentRef))
    case Blocks(blocks) => seq(|blocks|, i requires 0 <= i < |blocks| => Item(None, None, None, None))
  }

  /** canonicalizeBlock; an empty array of children stays as it is. */
  function TryBlock(lib: Library, b: Block): Result<Block, TypeError>
    decreases b
  {
    var children: Result<Children, TypeError> :=
      if b.children.Absent? then Ok(Absent)
      else if b.kind in INLINE_PARENTS then
        var runs := TryInline(lib, ItemsOf(b.children));
        if runs.Err? then Err(runs.error) else Ok(if runs.value == [] then b.children else Runs(runs.value))
      else if b.children.Blocks? then
        var blocks := TryBlocks(lib, b.children.blocks);
        if blocks.Err? then Err(blocks.error) else Ok(Blocks(blocks.value))
      else Ok(b.children);
    if children.Err? then Err(children.error)
    else Ok(b.(children := children.value, props := NormaliseProps(lib, b.kind, b.props)))
  }

  /** `children.map(canonicalizeBlock)`, left to right; the first block that throws ends it. */
  function TryBlocks(lib: Library, blocks: seq<Block>): Result<seq<Block>, TypeError>
    decreases blocks
  {
    if blocks == [] then Ok([])
    else
      var first := TryBlock(lib, blocks[0]);
      if first.Err? then Err(first.error)
      else
        var others := TryBlocks(lib, blocks[1..]);
        if others.Err? then others else Ok([first.value] + others.value)
  }

  // --------------------------------------------------- sorting a whole tree

  function SortRef(ref: Option<Json>): Option<Json> {
    if ref.None? then None else Some(SortKeys(ref.value))
  }

  function SortRun(r: Run): Run {
    r.(link := SortRef(r.link), documentRef := SortRef(r.documentRef))
  }

  function SortRuns(rs: seq<Run>): (ss: seq<Run>)
    ensures |ss| == |rs| && forall i :: 0 <= i < |rs| ==> ss[i] == SortRun(rs[i])
  {
    seq(|rs|, i requires 0 <= i < |rs| => SortRun(rs[i]))
  }

  function SortProps(props: Option<Props>): Option<Props> {
    if props.None? then None else Some(props.value.(rest := SortKeys(props.value.rest)))
  }

  function SortBlock(b: Block): Block {
    var children :=
      match b.children
      case Absent => Absent
      case Runs(runs) => Runs(SortRuns(runs))
      case Blocks(blocks) => Blocks(seq(|blocks|, i requires 0 <= i < |blocks| => SortBlock(blocks[i])));
    b.(children := children, props := SortProps(b.props), rest := SortKeys(b.rest))
  }

  function SortBlocks(blocks: seq<Block>): (out: seq<Block>)
    ensures |out| == |blocks| && forall i :: 0 <= i < |out| ==> out[i] == SortBlock(blocks[i])
  {
    seq(|blocks|, i requires 0 <= i < |blocks| => SortBlock(blocks[i]))
  }

  function BlocksOf(e: Envelope): seq<Block> {
    if e.blocks.Some? then e.blocks.value else []
  }

  function CanonicalizeMDDM(lib: Library, e: Envelope): Result<Envelope, TypeError> {
    var blocks := TryBlocks(lib, BlocksOf(e));
    if blocks.Err? then Err(blocks.error)
    else Ok(Envelope(SortKeys(e.version),
                     Some(SortBlocks(blocks.value)),
                     Some(if e.templateRef.Some? then SortKeys(e.templateRef.value) else Null)))
  }

  // --------------------------------------------------------- what throws

  /** No inline parent below or at this block has blocks for children. */
  predicate Renders(b: Block) {
    b.children.Blocks? ==>
      if b.kind in INLINE_PARENTS then b.children.blocks == []
      else forall i :: 0 <= i < |b.children.blocks| ==> Renders(b.children.blocks[i])
  }

  predicate AllRender(blocks: seq<Block>) {
    forall i :: 0 <= i < |blocks| ==> Renders(blocks[i])
  }

  /** What canonicalizeBlock computes where it does not throw. */
  function CanonicalBlock(lib: Library, b: Block): Block
    requires Renders(b)
  {
    var children :=
      match b.children
      case Absent => Absent
      case Runs(runs) => if b.kind in INLINE_PARENTS then Runs(Canonical(lib, runs)) else b.children
      case Blocks(blocks) =>
        if b.kind in INLINE_PARENTS then Blocks([])
        else Blocks(seq(|blocks|, i requires 0 <= i < |blocks| => CanonicalBlock(lib, blocks[i])));
    b.(children := children, props := NormaliseProps(lib, b.kind, b.props))
  }

  lemma {:induction false} RunsHaveTexts(rs: seq<Run>)
    ensures RunsOf(ItemsOf(Runs(rs))) == Ok(rs)
  {
    if rs != [] {
      var n := |rs| - 1;
      RunsHaveTexts(rs[..n]);
      assert ItemsOf(Runs(rs))[..n] == ItemsOf(Runs(rs[..n]));
      assert rs == rs[..n] + [rs[n]];
    }
  }

  lemma InlineRunsStay(lib: Library, rs: seq<Run>)
    ensures TryInline(lib, ItemsOf(Runs(rs))) == Ok(Canonical(lib, rs))
    ensures Canonical(lib, rs) == [] <==> rs == []
  {
    RunsHaveTexts(rs);
    MergeShape(PrepareAll(lib, rs));
  }

  lemma InlineBlocksThrow(lib: Library, blocks: seq<Block>)
    ensures TryInline(lib, ItemsOf(Blocks(blocks))) == if blocks == [] then Ok([]) else Err(TypeError)
  {
    var items := ItemsOf(Blocks(blocks));
    if blocks == [] {
      assert Canonical(lib, []) == [];
    } else {
      FirstThrowDecides(items, 0);
    }
  }

  /** canonicalizeBlock throws exactly on trees where some inline parent has block children. */
  lemma {:induction false} BlockThrowsIff(lib: Library, b: Block)
    ensures TryBlock(lib, b).Ok? <==> Renders(b)
    ensures Renders(b) ==> TryBlock(lib, b) == Ok(CanonicalBlock(lib, b))
    decreases b
  {
    match b.children
    case Absent =>
    case Runs(runs) => InlineRunsStay(lib, runs);
    case Blocks(blocks) =>
      InlineBlocksThrow(lib, blocks);
      BlocksThrowIff(lib, blocks);
      if Renders(b) && b.kind !in INLINE_PARENTS {
        assert CanonicalBlock(lib, b).children.blocks == TryBlocks(lib, blocks).value;
      }
  }

  lemma {:induction false} BlocksThrowIff(lib: Library, blocks: seq<Block>)
    ensures var out := TryBlocks(lib, blocks);
            && (out.Ok? <==> AllRender(blocks))
            && (out.Ok? ==> |out.value| == |blocks|
                            && forall i :: 0 <= i < |blocks| ==> out.value[i] == CanonicalBlock(lib, blocks[i]))
    decreases blocks
  {
    if blocks != [] {
      BlockThrowsIff(lib, blocks[0]);
      BlocksThrowIff(lib, blocks[1..]);
      assert forall i :: 0 < i < |blocks| ==> blocks[i] == blocks[1..][i - 1];
      if AllRender(blocks) {
        assert AllRender(blocks[1..]);
      }
    }
  }

  /** canonicalizeMDDM returns exactly when no inline parent anywhere has blocks for children;
      it then returns the canonical blocks with their keys sorted, one for one. */
  lemma ThrowsIff(lib: Library, e: Envelope)
    ensures var out := CanonicalizeMDDM(lib, e);
            && (out.Ok? <==> AllRender(BlocksOf(e)))
            && (out.Ok? ==>
                  && out.value.blocks.Some? && |out.value.blocks.value| == |BlocksOf(e)|
                  && forall i :: 0 <= i < |BlocksOf(e)| ==> out.value.blocks.value[i] == FullBlock(lib, BlocksOf(e)[i]))
  {
    BlocksThrowIff(lib, BlocksOf(e));
  }

  // ------------------------------------------------------------ well formed

  ghost predicate RefWellFormed(ref: Option<Json>) {
    ref.Some? ==> WellFormed(ref.value)
  }

  ghost predicate RunsWellFormed(rs: seq<Run>) {
    forall i :: 0 <= i < |rs| ==> RefWellFormed(rs[i].link) && RefWellFormed(rs[i].documentRef)
  }

  ghost predicate BlockWellFormed(b: Block) {
    && WellFormed(b.rest)
    && (b.props.Some? ==> WellFormed(b.props.value.rest))
    && (match b.children
        case Absent => true
        case Runs(runs) => RunsWellFormed(runs)
        case Blocks(blocks) => forall i :: 0 <= i < |blocks| ==> BlockWellFormed(blocks[i]))
  }

  // --------------------------------------------------------- inline content

  ghost predicate RefsSorted(rs: seq<Run>) {
    forall i :: 0 <= i < |rs| ==> SortRun(rs[i]) == rs[i]
  }

  lemma SortRefKeeps(ref: Option<Json>)
    requires RefWellFormed(ref)
    ensures RefWellFormed(SortRef(ref)) && SortRef(SortRef(ref)) == SortRef(ref)
    ensures StripRef(ref) == ref ==> StripRef(SortRef(ref)) == SortRef(ref)
  {
    if ref.Some? {
      SortKeysKeepsValue(ref.value);
    }
  }

  /** Merged and stripped runs take their references from the runs they came from. */
  lemma CanonicalRefs(lib: Library, rs: seq<Run>, i: int) returns (k: int)
    requires 0 <= i < |Canonical(lib, rs)|
    ensures 0 <= k < |rs|
    ensures Canonical(lib, rs)[i].link == StripRef(rs[k].link)
    ensures Canonical(lib, rs)[i].documentRef == StripRef(rs[k].documentRef)
  {
    var prepared := PrepareAll(lib, rs);
    MergeShape(prepared);
    k :| 0 <= k < |prepared| && SameDecoration(Merge(prepared)[i], prepared[k]);
  }

  function FullInline(lib: Library, rs: seq<Run>): seq<Run> {
    SortRuns(Canonical(lib, rs))
  }

  lemma FullInlineShape(lib: Library, rs: seq<Run>)
    requires RunsWellFormed(rs)
    ensures var out := FullInline(lib, rs);
            RunsWellFormed(out) && RefsSorted(out) && MarksSorted(lib, out) && RefsTruthy(out)
  {
    var once := Canonical(lib, rs);
    CanonicalShape(lib, rs);
    forall i | 0 <= i < |once|
      ensures RefWellFormed(SortRun(once[i]).link) && RefWellFormed(SortRun(once[i]).documentRef)
      ensures SortRun(SortRun(once[i])) == SortRun(once[i])
      ensures StripRef(SortRef(once[i].link)) == SortRef(once[i].link)
      ensures StripRef(SortRef(once[i].documentRef)) == SortRef(once[i].documentRef)
    {
      var k := CanonicalRefs(lib, rs, i);
      SortRefKeeps(once[i].link);
      SortRefKeeps(once[i].documentRef);
    }
  }

  lemma FullInlineFixpoint(lib: Library, rs: seq<Run>)
    requires RunsWellFormed(rs)
    ensures FullInline(lib, rs) == rs
            <==> RefsSorted(rs) && MarksSorted(lib, rs) && RefsTruthy(rs) && TextsStable(lib, rs) && NoMergeable(rs)
  {
    var once := Canonical(lib, rs);
    FixpointIffCanonical(lib, rs);
    FullInlineShape(lib, rs);
    if FullInline(lib, rs) == rs {
      assert RefsSorted(rs);
    }
    if RefsSorted(rs) {
      forall i | 0 <= i < |once| ensures SortRun(once[i]) == once[i] {
        var k := CanonicalRefs(lib, rs, i);
        assert SortRun(rs[k]) == rs[k];
      }
      assert SortRuns(once) == once;
    }
  }

  ghost predicate SameRef(a: Option<Json>, b: Option<Json>) {
    (a.None? && b.None?) || (a.Some? && b.Some? && Denote(a.value) == Denote(b.value))
  }

  /** Two runs have the same marks and references of the same values, a falsy one being none. */
  ghost predicate SameMeaning(lib: Library, r: Run, s: Run) {
    && SortMarksOf(lib, r.marks) == SortMarksOf(lib, s.marks)
    && SameRef(StripRef(r.link), StripRef(s.link))
    && SameRef(StripRef(r.documentRef), StripRef(s.documentRef))
  }

  /** Neighbours that mean the same have their references written in the same way. */
  ghost predicate WrittenAlike(lib: Library, rs: seq<Run>) {
    forall i :: 0 < i < |rs| && SameMeaning(lib, rs[i - 1], rs[i]) ==>
      rs[i - 1].link == rs[i].link && rs[i - 1].documentRef == rs[i].documentRef
  }

  function SortStripped(r: Run): Run {
    SortRun(Strip(r))
  }

  lemma SameNormIffSameMeaning(lib: Library, r: Run, s: Run)
    requires RunsWellFormed([r, s])
    ensures SameDecoration(SortStripped(Prepare(lib, r)), SortStripped(Prepare(lib, s))) <==> SameMeaning(lib, r, s)
  {
    assert [r, s][0] == r && [r, s][1] == s;
    SortRefIffSameRef(StripRef(r.link), StripRef(s.link));
    SortRefIffSameRef(StripRef(r.documentRef), StripRef(s.documentRef));
  }

  lemma ApartIffWrittenAlike(lib: Library, rs: seq<Run>)
    requires RunsWellFormed(rs)
    ensures Apart(PrepareAll(lib, rs), SortStripped) <==> WrittenAlike(lib, rs)
  {
    var prepared := PrepareAll(lib, rs);
    forall i | 0 < i < |rs|
      ensures SameDecoration(SortStripped(prepared[i - 1]), SortStripped(prepared[i]))
              <==> SameMeaning(lib, rs[i - 1], rs[i])
    {
      SameNormIffSameMeaning(lib, rs[i - 1], rs[i]);
    }
  }

  /** Mergeable neighbours are left exactly when the input has neighbours whose references are
      the same but written differently: keys in another order, or falsy in another way. */
  lemma LeftoverIffWrittenApart(lib: Library, rs: seq<Run>)
    requires RunsWellFormed(rs)
    ensures NoMergeable(FullInline(lib, rs)) <==> WrittenAlike(lib, rs)
  {
    var merged, out := Merge(PrepareAll(lib, rs)), FullInline(lib, rs);
    MergeApart(PrepareAll(lib, rs), SortStripped);
    ApartIffWrittenAlike(lib, rs);
    assert forall i :: 0 <= i < |merged| ==> out[i] == SortStripped(merged[i]);
    assert NoMergeable(out) <==> Distinct(merged, SortStripped);
  }

  lemma FullStableIffTextsJoin(lib: Library, rs: seq<Run>)
    ensures TextsStable(lib, FullInline(lib, rs)) <==> TextsJoin(lib, rs)
  {
    var once, out := Canonical(lib, rs), FullInline(lib, rs);
    StableIffTextsJoin(lib, rs);
    assert forall i :: 0 <= i < |once| ==> out[i].text == once[i].text;
  }

  /** With key sorting the inline pipeline is idempotent exactly for inputs whose stretches of
      equally decorated runs are in NFC when put together and whose equal references stand in
      equal writing. */
  lemma FullInlineIdempotentIff(lib: Library, rs: seq<Run>)
    requires RunsWellFormed(rs)
    ensures FullInline(lib, FullInline(lib, rs)) == FullInline(lib, rs) <==> TextsJoin(lib, rs) && WrittenAlike(lib, rs)
  {
    FullInlineShape(lib, rs);
    FullInlineFixpoint(lib, FullInline(lib, rs));
    FullStableIffTextsJoin(lib, rs);
    LeftoverIffWrittenApart(lib, rs);
  }

  lemma SortRefIffSameRef(a: Option<Json>, b: Option<Json>)
    requires RefWellFormed(a) && RefWellFormed(b)
    ensures SortRef(a) == SortRef(b) <==> SameRef(a, b)
  {
    if a.Some? && b.Some? {
      SortKeysIffSameValue(a.value, b.value);
    }
  }

  // ----------------------------------------------------------- whole trees

  function FullBlock(lib: Library, b: Block): Block
    requires Renders(b)
  {
    SortBlock(CanonicalBlock(lib, b))
  }

  ghost predicate PropsStable(lib: Library, b: Block) {
    b.kind != "code" && b.props.Some? ==>
      && NfcIfTruthy(lib, b.props.value.title) == b.props.value.title
      && NfcIfTruthy(lib, b.props.value.labelText) == b.props.value.labelText
  }

  /** The only ways a canonical tree can still change: a text or title that is not in NFC, or
      a mergeable pair in some inline content. */
  ghost predicate BlockStable(lib: Library, b: Block) {
    && PropsStable(lib, b)
    && (match b.children
        case Absent => true
        case Runs(runs) => b.kind in INLINE_PARENTS ==> TextsStable(lib, runs) && NoMergeable(runs)
        case Blocks(blocks) => forall i :: 0 <= i < |blocks| ==> BlockStable(lib, blocks[i]))
  }

  /** What one pass establishes for every tree. */
  ghost predicate BlockShaped(lib: Library, b: Block) {
    && SortKeys(b.rest) == b.rest
    && SortProps(b.props) == b.props
    && (match b.children
        case Absent => true
        case Runs(runs) =>
          && RunsWellFormed(runs) && RefsSorted(runs)
          && (b.kind in INLINE_PARENTS ==> MarksSorted(lib, runs) && RefsTruthy(runs))
        case Blocks(blocks) => forall i :: 0 <= i < |blocks| ==> BlockShaped(lib, blocks[i]))
  }

  lemma {:induction false} FullBlockShaped(lib: Library, b: Block)
    requires Renders(b) && BlockWellFormed(b)
    ensures Renders(FullBlock(lib, b)) && BlockShaped(lib, FullBlock(lib, b))
  {
    SortKeysKeepsValue(b.rest);
    if b.props.Some? { SortKeysKeepsValue(b.props.value.rest); }
    match b.children
    case Absent =>
    case Runs(runs) =>
      if b.kind in INLINE_PARENTS {
        FullInlineShape(lib, runs);
      } else {
        forall i | 0 <= i < |runs|
          ensures SortRun(SortRun(runs[i])) == SortRun(runs[i])
          ensures RefWellFormed(SortRun(runs[i]).link) && RefWellFormed(SortRun(runs[i]).documentRef)
        {
          SortRefKeeps(runs[i].link);
          SortRefKeeps(runs[i].documentRef);
        }
      }
    case Blocks(blocks) =>
      if b.kind !in INLINE_PARENTS {
        forall i | 0 <= i < |blocks|
          ensures Renders(FullBlock(lib, blocks[i])) && BlockShaped(lib, FullBlock(lib, blocks[i]))
        {
          FullBlockShaped(lib, blocks[i]);
        }
        assert forall i :: 0 <= i < |blocks| ==> FullBlock(lib, b).children.blocks[i] == FullBlock(lib, blocks[i]);
      }
  }

  /** A shaped tree is left alone exactly when it is stable. */
  lemma {:induction false} ShapedFixpoint(lib: Library, b: Block)
    requires Renders(b) && BlockShaped(lib, b)
    ensures FullBlock(lib, b) == b <==> BlockStable(lib, b)
  {
    match b.children
    case Absent =>
    case Runs(runs) =>
      if b.kind in INLINE_PARENTS {
        FullInlineFixpoint(lib, runs);
      } else {
        assert SortRuns(runs) == runs;
      }
    case Blocks(blocks) =>
      if b.kind !in INLINE_PARENTS {
        forall i | 0 <= i < |blocks| ensures FullBlock(lib, blocks[i]) == blocks[i] <==> BlockStable(lib, blocks[i]) {
          ShapedFixpoint(lib, blocks[i]);
        }
        var out := FullBlock(lib, b).children.blocks;
        assert forall i :: 0 <= i < |blocks| ==> out[i] == FullBlock(lib, blocks[i]);
        if forall i :: 0 <= i < |blocks| ==> BlockStable(lib, blocks[i]) {
          assert out == blocks;
        }
      }
  }

  function Twice(lib: Library, s: Option<string>): Option<string> {
    NfcIfTruthy(lib, NfcIfTruthy(lib, s))
  }

  /** The trees that one pass settles: normalising a title or label twice does what once does,
      and all inline content has texts that join and references written alike. */
  ghost predicate Settles(lib: Library, b: Block) {
    && (b.kind != "code" && b.props.Some? ==>
          && Twice(lib, b.props.value.title) == NfcIfTruthy(lib, b.props.value.title)
          && Twice(lib, b.props.value.labelText) == NfcIfTruthy(lib, b.props.value.labelText))
    && (match b.children
        case Absent => true
        case Runs(runs) => b.kind in INLINE_PARENTS ==> TextsJoin(lib, runs) && WrittenAlike(lib, runs)
        case Blocks(blocks) => forall i :: 0 <= i < |blocks| ==> Settles(lib, blocks[i]))
  }

  lemma {:induction false} StableIffSettles(lib: Library, b: Block)
    requires Renders(b) && BlockWellFormed(b)
    ensures BlockStable(lib, FullBlock(lib, b)) <==> Settles(lib, b)
  {
    match b.children
    case Absent =>
    case Runs(runs) =>
      if b.kind in INLINE_PARENTS {
        FullStableIffTextsJoin(lib, runs);
        LeftoverIffWrittenApart(lib, runs);
      }
    case Blocks(blocks) =>
      if b.kind !in INLINE_PARENTS {
        var out := FullBlock(lib, b).children.blocks;
        forall i | 0 <= i < |blocks|
          ensures out[i] == FullBlock(lib, blocks[i])
          ensures BlockStable(lib, FullBlock(lib, blocks[i])) <==> Settles(lib, blocks[i])
        {
          StableIffSettles(lib, blocks[i]);
        }
      }
  }

  /** A second pass over a whole tree changes nothing exactly when the tree settles. */
  lemma FullBlockIdempotentIff(lib: Library, b: Block)
    requires Renders(b) && BlockWellFormed(b)
    ensures Renders(FullBlock(lib, b))
    ensures FullBlock(lib, FullBlock(lib, b)) == FullBlock(lib, b) <==> Settles(lib, b)
  {
    FullBlockShaped(lib, b);
    ShapedFixpoint(lib, FullBlock(lib, b));
    StableIffSettles(lib, b);
  }

  // -------------------------------------------------------- where it fails

  /** One link, its keys written in both orders. */
  function Link(hrefFirst: bool): Json {
    var href, title := Field("href", Str("u")), Field("title", Str("t"));
    if hrefFirst then Obj([href, title]) else Obj([title, href])
  }

  lemma LinksDiffer()
    ensures WellFormed(Link(true)) && WellFormed(Link(false)) && Link(true) != Link(false)
  {
    assert "href"[0] != "title"[0];
    assert Link(true).fields[0] != Link(false).fields[0];
  }

  lemma LinkMembers(hrefFirst: bool)
    ensures Denote(Link(hrefFirst)).members == {Member("href", VStr("u")), Member("title", VStr("t"))}
  {
    DenoteMember(Link(hrefFirst).fields, 0);
    DenoteMember(Link(hrefFirst).fields, 1);
  }

  /** Two runs with one link, its keys written in both orders, are left apart by the first
      pass and merged by the second: canonicalising is not idempotent on schema-valid input. */
  lemma KeyOrderBreaksIdempotence(lib: Library, text: string)
    ensures var rs := [Run(text, None, Some(Link(true)), None), Run(text, None, Some(Link(false)), None)];
            && RunsWellFormed(rs) && RefsTruthy(rs)
            && FullInline(lib, FullInline(lib, rs)) != FullInline(lib, rs)
  {
    var rs := [Run(text, None, Some(Link(true)), None), Run(text, None, Some(Link(false)), None)];
    LinksDiffer();
    LinkMembers(true);
    LinkMembers(false);
    assert RefWellFormed(rs[0].link) && RefWellFormed(rs[1].link);
    assert SameMeaning(lib, rs[1 - 1], rs[1]) && rs[1 - 1].link != rs[1].link;
    assert !WrittenAlike(lib, rs);
    FullInlineIdempotentIff(lib, rs);
  }

  /** A second canonicalizeMDDM never throws, and returns the same envelope exactly when every
      block of the given one settles. */
  lemma CanonicalizeIdempotentIff(lib: Library, e: Envelope)
    requires WellFormed(e.version) && (e.templateRef.Some? ==> WellFormed(e.templateRef.value))
    requires forall i :: 0 <= i < |BlocksOf(e)| ==> BlockWellFormed(BlocksOf(e)[i])
    ensures var once := CanonicalizeMDDM(lib, e);
            once.Ok? ==>
              && CanonicalizeMDDM(lib, once.value).Ok?
              && (CanonicalizeMDDM(lib, once.value) == once
                  <==> forall i :: 0 <= i < |BlocksOf(e)| ==> Settles(lib, BlocksOf(e)[i]))
  {
    var once := CanonicalizeMDDM(lib, e);
    var blocks := BlocksOf(e);
    ThrowsIff(lib, e);
    if once.Ok? {
      var outs := BlocksOf(once.value);
      forall i | 0 <= i < |blocks|
        ensures outs[i] == FullBlock(lib, blocks[i]) && Renders(outs[i])
        ensures FullBlock(lib, outs[i]) == outs[i] <==> Settles(lib, blocks[i])
      {
        FullBlockIdempotentIff(lib, blocks[i]);
      }
      ThrowsIff(lib, once.value);
      SortKeysKeepsValue(e.version);
      if e.templateRef.Some? { SortKeysKeepsValue(e.templateRef.value); }
      var again := BlocksOf(CanonicalizeMDDM(lib, once.value).value);
      assert again == outs <==> forall i :: 0 <= i < |blocks| ==> again[i] == outs[i];
    }
  }
}
