/** ValidatePlaceholders: the gate every stored placeholder schema has passed. */
module PlaceholderSchema {
  import opened Prelude
  import opened JsonKeys
  import opened FunctionalGraph
  import opened VisibilityGraph

  datatype SchemaError =
    | EmptyId(index: int)
    | DuplicateId(id: Id)
    | NameInvalid(id: Id)
    | DuplicateName(name: string)
    | NotInCatalog(id: Id)
    | NotComputed(id: Id)
    | InvalidConstraint(id: Id)
    | Visibility(error: GraphError)

  const CATALOG: seq<string> :=
    ["doc_code", "doc_title", "revision_number", "author", "effective_date", "approvers", "controlled_by_area"]

  // ------------------------------------------------- one placeholder on its own

  predicate NameStart(c: char) {
    'a' <= c <= 'z'
  }

  predicate NamePart(c: char) {
    NameStart(c) || '0' <= c <= '9' || c == '_'
  }

  /** ^[a-z][a-z0-9_]{0,49}$ */
  predicate NameMatches(s: string) {
    1 <= |s| <= 50 && NameStart(s[0]) && forall i :: 0 < i < |s| ==> NamePart(s[i])
  }

  /** A named placeholder shows the catalogue entry of that name. */
  predicate NameBound(p: Placeholder) {
    p.name == "" || (NameMatches(p.name) && p.name in CATALOG && p.kind == Computed && p.resolverKey == Some(p.name))
  }

  predicate LimitsOk(l: Limits) {
    && (l.regex.Some? ==> l.regex.value.valid)
    && (l.minNumber.Some? && l.maxNumber.Some? ==> l.minNumber.value <= l.maxNumber.value)
    && (l.minDate.Some? ==> l.minDate.value.valid)
    && (l.maxDate.Some? ==> l.maxDate.value.valid)
    && (l.minDate.Some? && l.maxDate.Some? ==> !Before(l.maxDate.value.text, l.minDate.value.text))
    && (l.maxLength.Some? ==> l.maxLength.value > 0)
  }

  predicate Resolvable(p: Placeholder) {
    p.computed ==> p.resolverKey.Some? && p.resolverKey.value != ""
  }

  predicate Sound(p: Placeholder) {
    NameBound(p) && LimitsOk(p.limits) && Resolvable(p)
  }

  // --------------------------------------------------------- a whole schema

  ghost predicate DistinctIds(phs: seq<Placeholder>) {
    forall i, j :: 0 <= i < j < |phs| ==> phs[i].id != phs[j].id
  }

  ghost predicate DistinctNames(phs: seq<Placeholder>) {
    forall i, j :: 0 <= i < j < |phs| ==> phs[i].name == "" || phs[i].name != phs[j].name
  }

  ghost predicate EachSound(phs: seq<Placeholder>) {
    forall i :: 0 <= i < |phs| ==> phs[i].id != "" && Sound(phs[i])
  }

  ghost predicate TargetsListed(phs: seq<Placeholder>) {
    forall i :: 0 <= i < |phs| && phs[i].visibleIf.Some? ==>
      exists j :: 0 <= j < |phs| && phs[j].id == phs[i].visibleIf.value
  }

  ghost predicate ValidSchema(phs: seq<Placeholder>) {
    && EachSound(phs) && DistinctIds(phs) && DistinctNames(phs)
    && TargetsListed(phs) && !Cyclic(Deps(ById(phs)))
  }

  /** The first n placeholders pass every check of their own. */
  ghost predicate Pass(phs: seq<Placeholder>, n: int)
    requires 0 <= n <= |phs|
  {
    EachSound(phs[..n]) && DistinctIds(phs[..n]) && DistinctNames(phs[..n])
  }

  /** The first placeholder that fails. */
  ghost predicate AtFault(phs: seq<Placeholder>, n: int, id: Id) {
    0 <= n < |phs| && Pass(phs, n) && phs[n].id == id
  }

  /** The error is true, and of the first placeholder at fault; the graph is looked at last. */
  ghost predicate Explained(phs: seq<Placeholder>, e: SchemaError) {
    match e
    case EmptyId(n) => 0 <= n < |phs| && Pass(phs, n) && phs[n].id == ""
    case DuplicateId(id) => exists k, n :: 0 <= k < n < |phs| && Pass(phs, n) && phs[k].id == phs[n].id == id
    case DuplicateName(name) =>
      name != "" && exists k, n :: 0 <= k < n < |phs| && Pass(phs, n) && phs[k].name == phs[n].name == name
    case NameInvalid(id) => exists n :: AtFault(phs, n, id) && phs[n].name != "" && !NameMatches(phs[n].name)
    case NotInCatalog(id) =>
      exists n :: AtFault(phs, n, id) && NameMatches(phs[n].name) && phs[n].name !in CATALOG
    case NotComputed(id) =>
      exists n :: AtFault(phs, n, id) && phs[n].name in CATALOG
                  && (phs[n].kind != Computed || phs[n].resolverKey != Some(phs[n].name))
    case InvalidConstraint(id) =>
      exists n :: AtFault(phs, n, id) && NameBound(phs[n]) && !(LimitsOk(phs[n].limits) && Resolvable(phs[n]))
    case Visibility(error) => Pass(phs, |phs|) && FirstBad(phs, error)
  }

  method CheckConstraints(p: Placeholder) returns (ok: bool)
    ensures ok <==> LimitsOk(p.limits) && Resolvable(p)
  {
    var l := p.limits;
    if l.regex.Some? && !l.regex.value.valid { return false; }
    if l.minNumber.Some? && l.maxNumber.Some? && l.minNumber.value > l.maxNumber.value { return false; }
    if l.minDate.Some? && !l.minDate.value.valid { return false; }
    if l.maxDate.Some? && !l.maxDate.value.valid { return false; }
    if l.minDate.Some? && l.maxDate.Some? && Before(l.maxDate.value.text, l.minDate.value.text) { return false; }
    if l.maxLength.Some? && l.maxLength.value <= 0 { return false; }
    if p.computed && (p.resolverKey.None? || p.resolverKey.value == "") { return false; }
    return true;
  }

  /** The checks on one placeholder, in order. */
  function Fault(p: Placeholder, index: int, seen: set<Id>, seenNames: set<string>): Option<SchemaError> {
    if p.id == "" then Some(EmptyId(index))
    else if p.id in seen then Some(DuplicateId(p.id))
    else if p.name != "" && !NameMatches(p.name) then Some(NameInvalid(p.id))
    else if p.name != "" && p.name in seenNames then Some(DuplicateName(p.name))
    else if p.name != "" && p.name !in CATALOG then Some(NotInCatalog(p.id))
    else if p.name != "" && (p.kind != Computed || p.resolverKey != Some(p.name)) then Some(NotComputed(p.id))
    else if !(LimitsOk(p.limits) && Resolvable(p)) then Some(InvalidConstraint(p.id))
    else None
  }

  ghost predicate SeenAre(phs: seq<Placeholder>, seen: set<Id>, seenNames: set<string>) {
    && (forall id :: id in seen <==> exists k :: 0 <= k < |phs| && phs[k].id == id)
    && (forall n :: n in seenNames <==> n != "" && exists k :: 0 <= k < |phs| && phs[k].name == n)
  }

  lemma FaultIsExplained(phs: seq<Placeholder>, n: int, seen: set<Id>, seenNames: set<string>)
    requires 0 <= n < |phs| && Pass(phs, n) && SeenAre(phs[..n], seen, seenNames)
    requires Fault(phs[n], n, seen, seenNames).Some?
    ensures Explained(phs, Fault(phs[n], n, seen, seenNames).value)
    ensures !Pass(phs, n + 1)
  {
    var p := phs[n];
    assert AtFault(phs, n, p.id);
    assert phs[..n + 1][n] == p;
    if p.id in seen {
      var k :| 0 <= k < n && phs[..n][k].id == p.id;
      assert phs[..n + 1][k].id == p.id;
    }
    if p.name in seenNames {
      var k :| 0 <= k < n && phs[..n][k].name == p.name;
      assert phs[..n + 1][k].name == p.name;
    }
  }

  lemma NoFaultPasses(phs: seq<Placeholder>, n: int, seen: set<Id>, seenNames: set<string>)
    requires 0 <= n < |phs| && Pass(phs, n) && SeenAre(phs[..n], seen, seenNames)
    requires Fault(phs[n], n, seen, seenNames).None?
    ensures Pass(phs, n + 1)
  {
    var before, after := phs[..n], phs[..n + 1];
    assert after == before + [phs[n]];
    forall i | 0 <= i < n ensures before[i].id != phs[n].id && (phs[n].name == "" || before[i].name != phs[n].name) {
      assert before[i].id in seen;
    }
  }

  lemma SeeOne(phs: seq<Placeholder>, n: int, seen: set<Id>, seenNames: set<string>)
    requires 0 <= n < |phs| && SeenAre(phs[..n], seen, seenNames)
    ensures SeenAre(phs[..n + 1], seen + {phs[n].id}, seenNames + if phs[n].name == "" then {} else {phs[n].name})
  {
    var before, after := phs[..n], phs[..n + 1];
    assert after == before + [phs[n]];
    forall id ensures (exists k :: 0 <= k < |after| && after[k].id == id) <==> id in seen || id == phs[n].id {
      if id in seen {
        var k :| 0 <= k < |before| && before[k].id == id;
        assert after[k].id == id;
      }
      if id == phs[n].id { assert after[n].id == id; }
    }
    forall m ensures (exists k :: 0 <= k < |after| && after[k].name == m) && m != ""
                     <==> m in seenNames || (m == phs[n].name && m != "") {
      if m in seenNames {
        var k :| 0 <= k < |before| && before[k].name == m;
        assert after[k].name == m;
      }
      if m == phs[n].name { assert after[n].name == m; }
    }
  }

  lemma PassPrefix(phs: seq<Placeholder>, n: int)
    requires 0 <= n <= |phs| && Pass(phs, |phs|)
    ensures Pass(phs, n)
  {
    assert phs[..|phs|] == phs;
  }

  method CheckPlaceholder(p: Placeholder, index: int, seen: set<Id>, seenNames: set<string>)
    returns (err: Option<SchemaError>, seen': set<Id>, seenNames': set<string>)
    ensures err == Fault(p, index, seen, seenNames)
    ensures err.None? ==> seen' == seen + {p.id} && seenNames' == seenNames + if p.name == "" then {} else {p.name}
  {
    seen', seenNames' := seen, seenNames;
    if p.id == "" { return Some(EmptyId(index)), seen', seenNames'; }
    if p.id in seen { return Some(DuplicateId(p.id)), seen', seenNames'; }
    seen' := seen + {p.id};
    if p.name != "" {
      if !NameMatches(p.name) { return Some(NameInvalid(p.id)), seen', seenNames'; }
      if p.name in seenNames { return Some(DuplicateName(p.name)), seen', seenNames'; }
      seenNames' := seenNames + {p.name};
      if p.name !in CATALOG { return Some(NotInCatalog(p.id)), seen', seenNames'; }
      if p.kind != Computed || p.resolverKey.None? || p.resolverKey.value != p.name {
        return Some(NotComputed(p.id)), seen', seenNames';
      }
    }
    var bounded := CheckConstraints(p);
    if !bounded { return Some(InvalidConstraint(p.id)), seen', seenNames'; }
    err := None;
  }

  method ValidatePlaceholders(phs: seq<Placeholder>) returns (err: Option<SchemaError>)
    ensures err.None? <==> ValidSchema(phs)
    ensures err.Some? ==> Explained(phs, err.value)
  {
    var seen: set<Id>, seenNames: set<string> := {}, {};
    for i := 0 to |phs|
      invariant Pass(phs, i) && SeenAre(phs[..i], seen, seenNames)
    {
      ghost var before, names := seen, seenNames;
      err, seen, seenNames := CheckPlaceholder(phs[i], i, seen, seenNames);
      if err.Some? {
        FaultIsExplained(phs, i, before, names);
        if ValidSchema(phs) {
          assert phs[..|phs|] == phs;
          PassPrefix(phs, i + 1);
        }
        return;
      }
      NoFaultPasses(phs, i, before, names);
      SeeOne(phs, i, before, names);
    }
    assert phs[..|phs|] == phs;
    DistinctIdsReadTheList(phs);
    var cycle := DetectVisibilityCycle(phs);
    if cycle.Some? { return Some(Visibility(cycle.value)); }
    err := None;
  }

  /** What the checks on one placeholder come to. */
  lemma SoundIff(p: Placeholder)
    ensures Sound(p) <==>
      && (p.name != "" ==>
            && p.kind == Computed && p.resolverKey == Some(p.name)
            && (p.name == "doc_code" || p.name == "doc_title" || p.name == "revision_number" || p.name == "author"
                || p.name == "effective_date" || p.name == "approvers" || p.name == "controlled_by_area"))
      && (p.limits.regex.Some? ==> p.limits.regex.value.valid)
      && (p.limits.minNumber.Some? && p.limits.maxNumber.Some? ==> p.limits.minNumber.value <= p.limits.maxNumber.value)
      && (p.limits.minDate.Some? ==> p.limits.minDate.value.valid)
      && (p.limits.maxDate.Some? ==> p.limits.maxDate.value.valid)
      && (p.limits.minDate.Some? && p.limits.maxDate.Some? ==>
            p.limits.minDate.value.text == p.limits.maxDate.value.text
            || Before(p.limits.minDate.value.text, p.limits.maxDate.value.text))
      && (p.limits.maxLength.Some? ==> p.limits.maxLength.value >= 1)
      && (p.computed ==> p.resolverKey.Some? && p.resolverKey.value != "")
  {
    CatalogMatches(p.name);
    if p.limits.minDate.Some? && p.limits.maxDate.Some? {
      BeforeTotal(p.limits.minDate.value.text, p.limits.maxDate.value.text);
    }
  }

  /** Every catalogue name has the form names must have. */
  lemma CatalogMatches(name: string)
    ensures name in CATALOG ==> NameMatches(name)
    ensures name in CATALOG <==> name == "doc_code" || name == "doc_title" || name == "revision_number" || name == "author"
                                 || name == "effective_date" || name == "approvers" || name == "controlled_by_area"
  {
  }

  // -------------------------------------------------- what edits ask beside

  /** Options are what select placeholders have, and only they. */
  predicate OptionsFit(phs: seq<Placeholder>) {
    forall i :: 0 <= i < |phs| ==> (phs[i].kind == Select <==> phs[i].options != [])
  }

  /** Without a registry of resolvers any key will do. */
  predicate ResolversKnown(phs: seq<Placeholder>, known: Option<set<string>>) {
    known.Some? ==> forall i :: 0 <= i < |phs| && phs[i].resolverKey.Some? ==> phs[i].resolverKey.value in known.value
  }

  method CheckResolvers(phs: seq<Placeholder>, known: Option<set<string>>) returns (ok: bool)
    ensures ok <==> ResolversKnown(phs, known)
  {
    if known.None? { return true; }
    for i := 0 to |phs|
      invariant forall k :: 0 <= k < i && phs[k].resolverKey.Some? ==> phs[k].resolverKey.value in known.value
    {
      if phs[i].resolverKey.Some? && phs[i].resolverKey.value !in known.value { return false; }
    }
    return true;
  }

  method CheckOptions(phs: seq<Placeholder>) returns (ok: bool)
    ensures ok <==> OptionsFit(phs)
  {
    for i := 0 to |phs|
      invariant forall k :: 0 <= k < i ==> (phs[k].kind == Select <==> phs[k].options != [])
    {
      if phs[i].kind == Select && |phs[i].options| == 0 { return false; }
      if phs[i].kind != Select && |phs[i].options| > 0 { return false; }
    }
    return true;
  }

  function NamesOf(phs: seq<Placeholder>): set<string> {
    set i | 0 <= i < |phs| && phs[i].name != "" :: phs[i].name
  }

  function Named(phs: seq<Placeholder>): set<int> {
    set i | 0 <= i < |phs| && phs[i].name != ""
  }

  lemma NamedSnoc(phs: seq<Placeholder>)
    requires phs != []
    ensures var n := |phs| - 1;
            && Named(phs) == Named(phs[..n]) + (if phs[n].name == "" then {} else {n})
            && NamesOf(phs) == NamesOf(phs[..n]) + (if phs[n].name == "" then {} else {phs[n].name})
  {
    var n := |phs| - 1;
    assert forall i :: 0 <= i < n ==> phs[..n][i] == phs[i];
    forall m | m in NamesOf(phs) ensures m in NamesOf(phs[..n]) || m == phs[n].name {
      var i :| 0 <= i < |phs| && phs[i].name == m;
      if i < n { assert phs[..n][i].name == m; }
    }
    forall m | m in NamesOf(phs[..n]) ensures m in NamesOf(phs) {
      var i :| 0 <= i < n && phs[..n][i].name == m;
      assert phs[i].name == m;
    }
  }

  lemma {:induction false} NamedAreNames(phs: seq<Placeholder>)
    requires DistinctNames(phs)
    ensures |Named(phs)| == |NamesOf(phs)|
  {
    if phs != [] {
      NamedAreNames(phs[..|phs| - 1]);
      NamedSnoc(phs);
    }
  }

  lemma {:induction false} DistinctCount(words: seq<string>)
    ensures |set w | w in words| <= |words|
  {
    if words != [] {
      var n := |words| - 1;
      DistinctCount(words[..n]);
      assert (set w | w in words) == (set w | w in words[..n]) + {words[n]};
    }
  }

  lemma SubsetIsNoLarger(a: set<string>, b: set<string>)
    requires a <= b
    ensures |a| <= |b|
  {
    assert b == a + (b - a);
  }

  /** A valid schema shows each catalogue entry at most once, so at most as many as there are,
      each resolved under its own name. */
  lemma EachEntryOnce(phs: seq<Placeholder>)
    requires ValidSchema(phs)
    ensures |Named(phs)| <= |CATALOG|
    ensures forall i :: i in Named(phs) ==> phs[i].resolverKey == Some(phs[i].name) && phs[i].name in CATALOG
    ensures forall i, j :: i in Named(phs) && j in Named(phs) && phs[i].resolverKey == phs[j].resolverKey ==> i == j
  {
    NamedAreNames(phs);
    DistinctCount(CATALOG);
    var entries := set w | w in CATALOG;
    forall n | n in NamesOf(phs) ensures n in entries {
      var i :| 0 <= i < |phs| && phs[i].name == n && n != "";
      assert NameBound(phs[i]);
    }
    SubsetIsNoLarger(NamesOf(phs), entries);
    assert forall i :: i in Named(phs) ==> NameBound(phs[i]);
  }

  /** The schema a template starts with. */
  lemma EmptySchemaIsValid()
    ensures ValidSchema([]) && OptionsFit([])
  {
    var g := Deps(ById([]));
    assert g == map[];
    EmptyAcyclic(g);
  }
}
