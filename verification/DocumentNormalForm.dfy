/** The canonical document is a normal form: two documents have the same one exactly when they
    say the same, down to every character with its marks and the values it refers to. */
module DocumentNormalForm {
  import opened Prelude
  import opened JsonKeys
  import opened InlineContent
  import opened DocumentBlocks

  // --------------------------------------------------------- what runs say

  /** A character with its marks and the values it refers to: neither the order of the marks nor
      that of the keys counts. */
  datatype Said = Said(c: char, marks: Option<multiset<Mark>>, link: Option<Value>, documentRef: Option<Value>)

  ghost function DenoteRef(ref: Option<Json>): Option<Value> {
    if ref.None? then None else Some(Denote(ref.value))
  }

  ghost function SaidOf(s: Styled): Said {
    Said(s.c, s.marks, DenoteRef(s.link), DenoteRef(s.documentRef))
  }

  ghost function Says(rs: seq<Run>): (said: seq<Said>)
    ensures |said| == |Decorated(rs)| && forall i :: 0 <= i < |said| ==> said[i] == SaidOf(Decorated(rs)[i])
  {
    seq(|Decorated(rs)|, i requires 0 <= i < |Decorated(rs)| => SaidOf(Decorated(rs)[i]))
  }

  lemma {:induction false} DecoratedFrom(rs: seq<Run>, i: int) returns (k: int, c: char)
    requires 0 <= i < |Decorated(rs)|
    ensures 0 <= k < |rs| && Decorated(rs)[i] == StyleOf(c, rs[k])
  {
    var n := |rs| - 1;
    var before := Decorated(rs[..n]);
    if i < |before| {
      k, c := DecoratedFrom(rs[..n], i);
    } else {
      k, c := n, rs[n].text[i - |before|];
    }
  }

  lemma SortRefSays(ref: Option<Json>)
    requires RefWellFormed(ref)
    ensures DenoteRef(StripRef(SortRef(ref))) == DenoteRef(StripRef(ref))
  {
    if ref.Some? {
      SortKeysKeepsValue(ref.value);
    }
  }

  lemma SortRunSays(r: Run, c: char)
    requires RefWellFormed(r.link) && RefWellFormed(r.documentRef)
    ensures SaidOf(StyleOf(c, SortRun(r))) == SaidOf(StyleOf(c, r))
  {
    SortRefSays(r.link);
    SortRefSays(r.documentRef);
  }

  lemma {:induction false} SortRunsSay(rs: seq<Run>)
    requires RunsWellFormed(rs)
    ensures Says(SortRuns(rs)) == Says(rs)
  {
    if rs != [] {
      var n := |rs| - 1;
      var sorted := SortRuns(rs);
      assert sorted[..n] == SortRuns(rs[..n]);
      SortRunsSay(rs[..n]);
      SaysSnoc(rs);
      SaysSnoc(sorted);
      assert RefWellFormed(rs[n].link) && RefWellFormed(rs[n].documentRef);
      forall i | 0 <= i < |rs[n].text| ensures SaidRun(sorted[n])[i] == SaidRun(rs[n])[i] {
        SortRunSays(rs[n], rs[n].text[i]);
      }
      assert SaidRun(sorted[n]) == SaidRun(rs[n]);
    }
  }

  ghost function SaidRun(r: Run): (said: seq<Said>)
    ensures |said| == |r.text| && forall i :: 0 <= i < |said| ==> said[i] == SaidOf(StyleOf(r.text[i], r))
  {
    seq(|r.text|, i requires 0 <= i < |r.text| => SaidOf(StyleOf(r.text[i], r)))
  }

  lemma SaysSnoc(rs: seq<Run>)
    requires rs != []
    ensures Says(rs) == Says(rs[..|rs| - 1]) + SaidRun(rs[|rs| - 1])
  {
    assert Decorated(rs) == Decorated(rs[..|rs| - 1]) + StyledChars(rs[|rs| - 1]);
  }

  lemma CanonicalWellFormed(lib: Library, rs: seq<Run>)
    requires RunsWellFormed(rs)
    ensures RunsWellFormed(Canonical(lib, rs))
  {
    var once := Canonical(lib, rs);
    forall i | 0 <= i < |once| ensures RefWellFormed(once[i].link) && RefWellFormed(once[i].documentRef) {
      var k := CanonicalRefs(lib, rs, i);
      assert RefWellFormed(rs[k].link) && RefWellFormed(rs[k].documentRef);
    }
  }

  /** The inline pipeline keeps what the runs say. */
  lemma FullInlineSays(lib: Library, rs: seq<Run>)
    requires RunsWellFormed(rs)
    ensures Says(FullInline(lib, rs)) == Says(NfcAll(lib, rs))
  {
    CanonicalKeepsText(lib, rs);
    CanonicalWellFormed(lib, rs);
    SortRunsSay(Canonical(lib, rs));
  }

  lemma SortedRefsTold(a: Option<Json>, b: Option<Json>)
    requires RefWellFormed(a) && RefWellFormed(b) && SortRef(a) == a && SortRef(b) == b && DenoteRef(a) == DenoteRef(b)
    ensures a == b
  {
    SortRefIffSameRef(a, b);
  }

  /** Between runs with sorted, truthy references what is said tells how it is written. */
  lemma SaidTellsStyle(rs: seq<Run>, ss: seq<Run>)
    requires RunsWellFormed(rs) && RefsSorted(rs) && RefsTruthy(rs)
    requires RunsWellFormed(ss) && RefsSorted(ss) && RefsTruthy(ss)
    requires Says(rs) == Says(ss)
    ensures Decorated(rs) == Decorated(ss)
  {
    forall i | 0 <= i < |Decorated(rs)| ensures Decorated(rs)[i] == Decorated(ss)[i] {
      assert Says(rs)[i] == Says(ss)[i];
      var k, c := DecoratedFrom(rs, i);
      var m, d := DecoratedFrom(ss, i);
      assert SortRun(rs[k]) == rs[k] && SortRun(ss[m]) == ss[m];
      SortedRefsTold(rs[k].link, ss[m].link);
      SortedRefsTold(rs[k].documentRef, ss[m].documentRef);
    }
  }

  // ------------------------------------------------------- inline content

  /** Nothing but the text said is left to show: no stretch is empty, and neighbours that mean
      the same are written alike. */
  ghost predicate Plain(lib: Library, rs: seq<Run>) {
    NoEmptyStretch(lib, rs) && WrittenAlike(lib, rs)
  }

  lemma PlainIffTidy(lib: Library, rs: seq<Run>)
    requires RunsWellFormed(rs)
    ensures var out := FullInline(lib, rs);
            && (Plain(lib, rs) <==> NoEmptyText(out) && NoMergeable(out))
            && (Plain(lib, rs) <==> Tidy(lib, out))
  {
    var merged, out := Merge(PrepareAll(lib, rs)), FullInline(lib, rs);
    FullInlineShape(lib, rs);
    LeftoverIffWrittenApart(lib, rs);
    MergedTexts(PrepareAll(lib, rs), NonEmpty);
    assert forall i :: 0 <= i < |merged| ==> out[i].text == merged[i].text;
  }

  lemma FullKindsApart(lib: Library, rs: seq<Run>)
    requires KindsApart(lib, rs)
    ensures KindsApart(lib, FullInline(lib, rs))
  {
    var once, out := Canonical(lib, rs), FullInline(lib, rs);
    CanonicalKindsApart(lib, rs);
    forall i | 0 <= i < |out| && out[i].marks.Some? ensures Separates(lib, out[i].marks.value) {
      assert out[i].marks == once[i].marks;
    }
  }

  /** The normal form theorem for the whole inline pipeline: another run list comes out the same
      exactly when it says the same and is plain too. */
  lemma FullInlineIffSaysSame(lib: Library, rs: seq<Run>, ss: seq<Run>)
    requires RunsWellFormed(rs) && RunsWellFormed(ss) && KindsApart(lib, rs) && Plain(lib, rs)
    ensures FullInline(lib, rs) == FullInline(lib, ss)
            <==> Plain(lib, ss) && Says(NfcAll(lib, rs)) == Says(NfcAll(lib, ss))
  {
    var r, s := FullInline(lib, rs), FullInline(lib, ss);
    PlainIffTidy(lib, rs);
    PlainIffTidy(lib, ss);
    FullInlineSays(lib, rs);
    FullInlineSays(lib, ss);
    if Plain(lib, ss) && Says(r) == Says(s) {
      FullInlineShape(lib, rs);
      FullInlineShape(lib, ss);
      FullKindsApart(lib, rs);
      SaidTellsStyle(r, s);
      TidyRunsTell(lib, r, s);
      TidyUnique(r, s);
    }
  }

  // ----------------------------------------------------------- whole trees

  /** Runs that are only sorted, not merged: under a code block, say. */
  ghost predicate SameRuns(rs: seq<Run>, ss: seq<Run>) {
    && |rs| == |ss|
    && forall i :: 0 <= i < |rs| ==>
         && rs[i].text == ss[i].text && rs[i].marks == ss[i].marks
         && SameRef(rs[i].link, ss[i].link) && SameRef(rs[i].documentRef, ss[i].documentRef)
  }

  ghost predicate SameProps(lib: Library, kind: string, p: Option<Props>, q: Option<Props>) {
    var a, b := NormaliseProps(lib, kind, p), NormaliseProps(lib, kind, q);
    || (a.None? && b.None?)
    || (&& a.Some? && b.Some? && a.value.title == b.value.title && a.value.labelText == b.value.labelText
        && Denote(a.value.rest) == Denote(b.value.rest))
  }

  /** Two trees say the same, block by block. */
  ghost predicate SaySame(lib: Library, b: Block, c: Block)
    decreases b
  {
    && b.kind == c.kind && Denote(b.rest) == Denote(c.rest) && SameProps(lib, b.kind, b.props, c.props)
    && (match b.children
        case Absent => c.children.Absent?
        case Runs(runs) =>
          && c.children.Runs?
          && (if b.kind in INLINE_PARENTS then Says(NfcAll(lib, runs)) == Says(NfcAll(lib, c.children.runs))
              else SameRuns(runs, c.children.runs))
        case Blocks(blocks) =>
          && c.children.Blocks? && |c.children.blocks| == |blocks|
          && forall i :: 0 <= i < |blocks| ==> SaySame(lib, blocks[i], c.children.blocks[i]))
  }

  ghost predicate PlainTree(lib: Library, b: Block) {
    match b.children
    case Absent => true
    case Runs(runs) => b.kind in INLINE_PARENTS ==> Plain(lib, runs)
    case Blocks(blocks) => forall i :: 0 <= i < |blocks| ==> PlainTree(lib, blocks[i])
  }

  ghost predicate KindsApartIn(lib: Library, b: Block) {
    match b.children
    case Absent => true
    case Runs(runs) => b.kind in INLINE_PARENTS ==> KindsApart(lib, runs)
    case Blocks(blocks) => forall i :: 0 <= i < |blocks| ==> KindsApartIn(lib, blocks[i])
  }

  lemma SortRunsIffSameRuns(rs: seq<Run>, ss: seq<Run>)
    requires RunsWellFormed(rs) && RunsWellFormed(ss)
    ensures SortRuns(rs) == SortRuns(ss) <==> SameRuns(rs, ss)
  {
    if |rs| == |ss| {
      forall i | 0 <= i < |rs|
        ensures SortRuns(rs)[i] == SortRuns(ss)[i]
                <==> && rs[i].text == ss[i].text && rs[i].marks == ss[i].marks
                     && SameRef(rs[i].link, ss[i].link) && SameRef(rs[i].documentRef, ss[i].documentRef)
      {
        SortRefIffSameRef(rs[i].link, ss[i].link);
        SortRefIffSameRef(rs[i].documentRef, ss[i].documentRef);
      }
    }
  }

  lemma SortPropsIffSameProps(lib: Library, kind: string, p: Option<Props>, q: Option<Props>)
    requires (p.Some? ==> WellFormed(p.value.rest)) && (q.Some? ==> WellFormed(q.value.rest))
    ensures SortProps(NormaliseProps(lib, kind, p)) == SortProps(NormaliseProps(lib, kind, q))
            <==> SameProps(lib, kind, p, q)
  {
    if p.Some? && q.Some? {
      SortKeysIffSameValue(p.value.rest, q.value.rest);
    }
  }

  /** What comes out of two blocks is equal exactly when its parts are. */
  lemma FullBlockParts(lib: Library, b: Block, c: Block)
    requires Renders(b) && Renders(c) && BlockWellFormed(b) && BlockWellFormed(c)
    ensures FullBlock(lib, b) == FullBlock(lib, c)
            <==> && b.kind == c.kind && Denote(b.rest) == Denote(c.rest) && SameProps(lib, b.kind, b.props, c.props)
                 && FullBlock(lib, b).children == FullBlock(lib, c).children
  {
    SortKeysIffSameValue(b.rest, c.rest);
    if b.kind == c.kind { SortPropsIffSameProps(lib, b.kind, b.props, c.props); }
  }

  /** The normal form theorem for block trees: another tree comes out the same exactly when it
      says the same and its inline content is plain too. */
  lemma {:induction false} FullBlockIffSaySame(lib: Library, b: Block, c: Block)
    requires Renders(b) && Renders(c) && BlockWellFormed(b) && BlockWellFormed(c)
    requires KindsApartIn(lib, b) && PlainTree(lib, b)
    ensures FullBlock(lib, b) == FullBlock(lib, c) <==> PlainTree(lib, c) && SaySame(lib, b, c)
    decreases b
  {
    FullBlockParts(lib, b, c);
    if b.kind == c.kind && b.children.Runs? && c.children.Runs? {
      if b.kind in INLINE_PARENTS {
        FullInlineIffSaysSame(lib, b.children.runs, c.children.runs);
      } else {
        SortRunsIffSameRuns(b.children.runs, c.children.runs);
      }
    } else if b.kind == c.kind && b.children.Blocks? && c.children.Blocks? && b.kind !in INLINE_PARENTS {
      var bs, cs := b.children.blocks, c.children.blocks;
      if |bs| == |cs| {
        forall i | 0 <= i < |bs|
          ensures FullBlock(lib, bs[i]) == FullBlock(lib, cs[i]) <==> PlainTree(lib, cs[i]) && SaySame(lib, bs[i], cs[i])
        {
          FullBlockIffSaySame(lib, bs[i], cs[i]);
        }
      }
      FullBlocksEqual(lib, b, c);
    }
  }

  lemma FullBlocks(lib: Library, b: Block) returns (out: seq<Block>)
    requires Renders(b) && b.children.Blocks? && b.kind !in INLINE_PARENTS
    ensures FullBlock(lib, b).children == Blocks(out) && |out| == |b.children.blocks|
    ensures forall i :: 0 <= i < |out| ==> out[i] == FullBlock(lib, b.children.blocks[i])
  {
    out := FullBlock(lib, b).children.blocks;
  }

  lemma FullBlocksEqual(lib: Library, b: Block, c: Block)
    requires Renders(b) && Renders(c) && b.children.Blocks? && c.children.Blocks?
    requires b.kind !in INLINE_PARENTS && c.kind !in INLINE_PARENTS
    ensures var bs, cs := b.children.blocks, c.children.blocks;
            FullBlock(lib, b).children == FullBlock(lib, c).children
            <==> |bs| == |cs| && forall i :: 0 <= i < |bs| ==> FullBlock(lib, bs[i]) == FullBlock(lib, cs[i])
  {
    var out := FullBlocks(lib, b);
    var more := FullBlocks(lib, c);
    assert out == more <==> |out| == |more| && forall i :: 0 <= i < |out| ==> out[i] == more[i];
  }

  // ------------------------------------------------------------- documents

  ghost predicate EnvelopeWellFormed(e: Envelope) {
    && WellFormed(e.version) && (e.templateRef.Some? ==> WellFormed(e.templateRef.value))
    && forall i :: 0 <= i < |BlocksOf(e)| ==> BlockWellFormed(BlocksOf(e)[i])
  }

  ghost predicate PlainBlocks(lib: Library, blocks: seq<Block>) {
    forall i :: 0 <= i < |blocks| ==> PlainTree(lib, blocks[i])
  }

  /** What a missing template_ref stands for is null. */
  ghost function TemplateValue(e: Envelope): Value {
    if e.templateRef.Some? then Denote(e.templateRef.value) else VNull
  }

  ghost predicate DocumentsSaySame(lib: Library, e: Envelope, f: Envelope) {
    && Denote(e.version) == Denote(f.version) && TemplateValue(e) == TemplateValue(f)
    && |BlocksOf(e)| == |BlocksOf(f)|
    && forall i :: 0 <= i < |BlocksOf(e)| ==> SaySame(lib, BlocksOf(e)[i], BlocksOf(f)[i])
  }

  lemma TemplateIffSameValue(e: Envelope, f: Envelope)
    requires EnvelopeWellFormed(e) && EnvelopeWellFormed(f)
    ensures (if e.templateRef.Some? then SortKeys(e.templateRef.value) else Null)
            == (if f.templateRef.Some? then SortKeys(f.templateRef.value) else Null)
            <==> TemplateValue(e) == TemplateValue(f)
  {
    var a := if e.templateRef.Some? then e.templateRef.value else Null;
    var b := if f.templateRef.Some? then f.templateRef.value else Null;
    SortKeysIffSameValue(a, b);
  }

  lemma OutcomesEqual(lib: Library, e: Envelope, f: Envelope)
    requires EnvelopeWellFormed(e) && EnvelopeWellFormed(f) && AllRender(BlocksOf(e)) && AllRender(BlocksOf(f))
    ensures CanonicalizeMDDM(lib, e) == CanonicalizeMDDM(lib, f)
            <==> && Denote(e.version) == Denote(f.version) && TemplateValue(e) == TemplateValue(f)
                 && |BlocksOf(e)| == |BlocksOf(f)|
                 && forall i :: 0 <= i < |BlocksOf(e)| ==> FullBlock(lib, BlocksOf(e)[i]) == FullBlock(lib, BlocksOf(f)[i])
  {
    ThrowsIff(lib, e);
    ThrowsIff(lib, f);
    SortKeysIffSameValue(e.version, f.version);
    TemplateIffSameValue(e, f);
    var bs, cs := CanonicalizeMDDM(lib, e).value.blocks.value, CanonicalizeMDDM(lib, f).value.blocks.value;
    assert bs == cs <==> |bs| == |cs| && forall i :: 0 <= i < |bs| ==> bs[i] == cs[i];
  }

  /** The normal form theorem for canonicalizeMDDM: where it returns, another document has the
      same canonical form exactly when it is one canonicalizeMDDM returns for, says the same and
      is plain too. */
  lemma CanonicalIffDocumentsSaySame(lib: Library, e: Envelope, f: Envelope)
    requires EnvelopeWellFormed(e) && EnvelopeWellFormed(f) && AllRender(BlocksOf(e)) && PlainBlocks(lib, BlocksOf(e))
    requires forall i :: 0 <= i < |BlocksOf(e)| ==> KindsApartIn(lib, BlocksOf(e)[i])
    ensures CanonicalizeMDDM(lib, e) == CanonicalizeMDDM(lib, f)
            <==> AllRender(BlocksOf(f)) && PlainBlocks(lib, BlocksOf(f)) && DocumentsSaySame(lib, e, f)
  {
    ThrowsIff(lib, e);
    ThrowsIff(lib, f);
    var bs, cs := BlocksOf(e), BlocksOf(f);
    if AllRender(cs) {
      OutcomesEqual(lib, e, f);
      if |bs| == |cs| {
        forall i | 0 <= i < |bs|
          ensures FullBlock(lib, bs[i]) == FullBlock(lib, cs[i]) <==> PlainTree(lib, cs[i]) && SaySame(lib, bs[i], cs[i])
        {
          FullBlockIffSaySame(lib, bs[i], cs[i]);
        }
      }
    }
  }
}
