/** DetectVisibilityCycle: a three-colour depth-first search over `visible_if`, where each
    placeholder depends on at most one other. */
module VisibilityGraph {
  import opened Prelude
  import opened FunctionalGraph

  datatype Kind = Text | Date | Number | Select | User | Picture | Computed

  /** A text that is parsed elsewhere, with the outcome: a regex compiled, a date read. */
  datatype Parsed = Parsed(text: string, valid: bool)

  datatype Limits = Limits(regex: Option<Parsed>, minNumber: Option<real>, maxNumber: Option<real>,
                           minDate: Option<Parsed>, maxDate: Option<Parsed>, maxLength: Option<int>)

  /** The search reads `id` and `visibleIf`. */
  datatype Placeholder = Placeholder(id: Id, name: string, kind: Kind, options: seq<string>, limits: Limits,
                                     visibleIf: Option<Id>, computed: bool, resolverKey: Option<string>)

  datatype GraphError = Cycle(path: seq<Id>) | UnknownDependency(id: Id, dependency: Id)

  // White nodes are the ones without an entry, as in a Go map.
  datatype Color = Gray | Black

  // The last of several placeholders with one id wins.
  function ById(phs: seq<Placeholder>): map<Id, Placeholder> {
    if phs == [] then map[]
    else var last := phs[|phs| - 1]; ById(phs[..|phs| - 1])[last.id := last]
  }

  ghost predicate Keyed(byId: map<Id, Placeholder>) {
    forall id :: id in byId ==> byId[id].id == id
  }

  lemma {:induction false} ByIdKeyed(phs: seq<Placeholder>)
    ensures Keyed(ById(phs))
    ensures forall id :: id in ById(phs) <==> exists i :: 0 <= i < |phs| && phs[i].id == id
  {
    if phs != [] {
      var rest := phs[..|phs| - 1];
      ByIdKeyed(rest);
      forall id ensures id in ById(phs) <==> exists i :: 0 <= i < |phs| && phs[i].id == id {
        if id in ById(rest) {
          var i :| 0 <= i < |rest| && rest[i].id == id;
          assert phs[i].id == id;
        }
        if i :| 0 <= i < |phs| && phs[i].id == id {
          if i < |rest| { assert rest[i].id == id; }
        }
      }
    }
  }

  /** The dependency graph: an edge from a placeholder to its visible_if target. */
  ghost function Deps(byId: map<Id, Placeholder>): Graph {
    map id | id in byId && byId[id].visibleIf.Some? :: byId[id].visibleIf.value
  }

  ghost predicate AllDeclared(byId: map<Id, Placeholder>) {
    forall id :: id in byId && byId[id].visibleIf.Some? ==> byId[id].visibleIf.value in byId
  }

  /** The chain from `id` ends, within `n` steps, at a declared unconditional placeholder. */
  ghost predicate Settled(byId: map<Id, Placeholder>, id: Id, n: nat)
    decreases n
  {
    id in byId && (byId[id].visibleIf.None? || (n > 0 && Settled(byId, byId[id].visibleIf.value, n - 1)))
  }

  ghost predicate Settles(byId: map<Id, Placeholder>, id: Id) {
    exists n: nat :: Settled(byId, id, n)
  }

  lemma {:induction false} SettledIsGrounded(byId: map<Id, Placeholder>, id: Id, n: nat)
    requires Settled(byId, id, n)
    ensures Grounded(Deps(byId), id, n)
    decreases n
  {
    if byId[id].visibleIf.Some? {
      SettledIsGrounded(byId, byId[id].visibleIf.value, n - 1);
    }
  }

  lemma {:induction false} SettledAlong(byId: map<Id, Placeholder>, p: seq<Id>, n: nat)
    requires |p| > 0 && Walk(Deps(byId), p) && Settled(byId, p[0], n)
    ensures Settles(byId, p[|p| - 1])
    decreases n
  {
    if |p| > 1 {
      var q := p[1..|p|];
      assert Edge(Deps(byId), p[0], p[1]);
      WalkPart(Deps(byId), p, 1, |p|);
      SettledAlong(byId, q, n - 1);
    }
  }

  /** Every chain settles exactly when every target is declared and there is no cycle: the
      easy half, which the search uses. */
  lemma AllSettled(byId: map<Id, Placeholder>)
    requires forall id :: id in byId ==> Settles(byId, id)
    ensures AllDeclared(byId) && !Cyclic(Deps(byId))
  {
    forall id | id in byId && byId[id].visibleIf.Some? ensures byId[id].visibleIf.value in byId {
      var n: nat :| Settled(byId, id, n);
      assert Settled(byId, byId[id].visibleIf.value, n - 1);
    }
    forall p ensures !ClosedWalk(Deps(byId), p) {
      if ClosedWalk(Deps(byId), p) {
        assert Edge(Deps(byId), p[0], p[1]);
        var n: nat :| Settled(byId, p[0], n);
        SettledIsGrounded(byId, p[0], n);
        GroundedOffCycle(Deps(byId), p, n);
        assert false;
      }
    }
  }

  ghost predicate Distinct(p: seq<Id>) {
    forall i, j :: 0 <= i < j < |p| ==> p[i] != p[j]
  }

  /** A cycle error carries a walk from `start` that runs through fresh ids until it returns to
      one of them; an unknown dependency is a really missing target reached from `start`. */
  ghost predicate Explains(byId: map<Id, Placeholder>, start: Id, e: GraphError) {
    match e
    case Cycle(path) =>
      && |path| >= 2 && path[0] == start && Walk(Deps(byId), path)
      && Distinct(path[..|path| - 1]) && path[|path| - 1] in path[..|path| - 1]
    case UnknownDependency(id, dependency) =>
      && id in byId && byId[id].visibleIf == Some(dependency) && dependency !in byId
      && exists p :: |p| > 0 && Walk(Deps(byId), p) && p[0] == start && p[|p| - 1] == id
  }

  lemma ExplainedIsBad(byId: map<Id, Placeholder>, start: Id, e: GraphError)
    requires Explains(byId, start, e)
    ensures !Settles(byId, start)
    ensures !(AllDeclared(byId) && !Cyclic(Deps(byId)))
  {
    match e
    case Cycle(path) =>
      var i :| 0 <= i < |path| - 1 && path[i] == path[|path| - 1];
      RevisitIsCyclic(Deps(byId), path, i);
      var q := path[i..];
      forall n: nat ensures !Settled(byId, start, n) {
        if Settled(byId, start, n) {
          WalkPart(Deps(byId), path, 0, i + 1);
          SettledAlong(byId, path[0..i + 1], n);
          var m: nat :| Settled(byId, path[i], m);
          SettledIsGrounded(byId, path[i], m);
          GroundedOffCycle(Deps(byId), q, m);
          assert false;
        }
      }
    case UnknownDependency(id, dependency) =>
      var p :| |p| > 0 && Walk(Deps(byId), p) && p[0] == start && p[|p| - 1] == id;
      forall n: nat ensures !Settled(byId, start, n) {
        if Settled(byId, start, n) {
          SettledAlong(byId, p, n);
          var m: nat :| Settled(byId, id, m);
          assert !Settled(byId, dependency, m - 1);
          assert false;
        }
      }
  }

  ghost predicate GrayIsStack(color: map<Id, Color>, stack: seq<Id>) {
    forall id :: id in stack <==> id in color && color[id] == Gray
  }

  ghost predicate BlackSettles(byId: map<Id, Placeholder>, color: map<Id, Color>) {
    forall id :: id in color && color[id] == Black ==> Settles(byId, id)
  }

  /** The gray ids are exactly the stack, a walk without repeats, and black chains settle. */
  ghost predicate SearchState(byId: map<Id, Placeholder>, color: map<Id, Color>, stack: seq<Id>) {
    && color.Keys <= byId.Keys && Walk(Deps(byId), stack) && Distinct(stack)
    && GrayIsStack(color, stack) && BlackSettles(byId, color)
  }

  ghost predicate BlackKept(before: map<Id, Color>, after: map<Id, Color>) {
    forall x :: x in before && before[x] == Black ==> x in after && after[x] == Black
  }

  lemma Enter(byId: map<Id, Placeholder>, color: map<Id, Color>, stack: seq<Id>, id: Id)
    requires SearchState(byId, color, stack) && id in byId && id !in color && Walk(Deps(byId), stack + [id])
    ensures SearchState(byId, color[id := Gray], stack + [id]) && BlackKept(color, color[id := Gray])
    ensures byId.Keys - color[id := Gray].Keys < byId.Keys - color.Keys
  {
    assert id in byId.Keys - color.Keys;
    assert id !in byId.Keys - color[id := Gray].Keys;
  }

  lemma Leave(byId: map<Id, Placeholder>, color: map<Id, Color>, stack: seq<Id>, id: Id)
    requires SearchState(byId, color, stack + [id]) && Settles(byId, id)
    ensures SearchState(byId, color[id := Black], stack) && BlackKept(color, color[id := Black])
  {
    var path := stack + [id];
    assert id in path;
    assert path[|stack|] == id && forall i :: 0 <= i < |stack| ==> path[i] == stack[i];
    WalkPart(Deps(byId), path, 0, |stack|);
    assert path[0..|stack|] == stack;
    assert id !in stack;
  }

  class Detector {
    const byId: map<Id, Placeholder>
    var color: map<Id, Color>

    constructor (byId: map<Id, Placeholder>)
      ensures this.byId == byId && color == map[]
    {
      this.byId := byId;
      color := map[];
    }

    ghost predicate Searching(stack: seq<Id>)
      reads this
    {
      SearchState(byId, color, stack)
    }

    method Visit(id: Id, stack: seq<Id>) returns (err: Option<GraphError>)
      requires Keyed(byId) && id in byId && Searching(stack)
      requires Walk(Deps(byId), stack + [id])
      modifies this
      ensures err.None? ==>
        Searching(stack) && id in color && color[id] == Black && BlackKept(old(color), color)
      ensures err.Some? ==> Explains(byId, (stack + [id])[0], err.value)
      decreases byId.Keys - color.Keys
    {
      var path := stack + [id];
      if id in color && color[id] == Gray {
        assert path[..|path| - 1] == stack;
        return Some(Cycle(path));
      }
      if id in color && color[id] == Black {
        return None;
      }
      Enter(byId, color, stack, id);
      color := color[id := Gray];
      var p := byId[id];
      if p.visibleIf.Some? {
        var depId := p.visibleIf.value;
        if depId !in byId {
          assert path[|path| - 1] == id;
          return Some(UnknownDependency(p.id, depId));
        }
        WalkMore(Deps(byId), path, depId);
        err := Visit(depId, path);
        if err.Some? {
          assert (path + [depId])[0] == path[0];
          return err;
        }
        ghost var n: nat :| Settled(byId, depId, n);
        assert Settled(byId, id, n + 1);
      } else {
        assert Settled(byId, id, 0);
      }
      Leave(byId, color, stack, id);
      color := color[id := Black];
      return None;
    }
  }

  /** The error of the first placeholder, in document order, whose chain does not settle. */
  ghost predicate FirstBad(phs: seq<Placeholder>, e: GraphError) {
    exists k :: 0 <= k < |phs| && Explains(ById(phs), phs[k].id, e) && SettledUpTo(phs, k)
  }

  ghost predicate SettledUpTo(phs: seq<Placeholder>, k: int)
    requires 0 <= k <= |phs|
  {
    forall j :: 0 <= j < k ==> Settles(ById(phs), phs[j].id)
  }

  method IndexById(phs: seq<Placeholder>) returns (placeholdersById: map<Id, Placeholder>)
    ensures placeholdersById == ById(phs)
  {
    placeholdersById := map[];
    for i := 0 to |phs|
      invariant placeholdersById == ById(phs[..i])
    {
      placeholdersById := placeholdersById[phs[i].id := phs[i]];
      assert phs[..i + 1][..i] == phs[..i];
    }
    assert phs[..|phs|] == phs;
  }

  /** Nil exactly when every target is declared and the dependencies are acyclic. */
  method DetectVisibilityCycle(phs: seq<Placeholder>) returns (err: Option<GraphError>)
    ensures err.None? <==> AllDeclared(ById(phs)) && !Cyclic(Deps(ById(phs)))
    ensures err.Some? ==> FirstBad(phs, err.value)
  {
    var placeholdersById := IndexById(phs);
    ByIdKeyed(phs);
    var search := new Detector(placeholdersById);
    for i := 0 to |phs|
      invariant search.byId == placeholdersById && search.Searching([])
      invariant forall j :: 0 <= j < i ==> phs[j].id in search.color
    {
      if phs[i].id !in search.color {
        assert [] + [phs[i].id] == [phs[i].id];
        ghost var colored := search.color;
        err := search.Visit(phs[i].id, []);
        if err.Some? {
          ColoredSettle(phs, search.byId, colored, i);
          ExplainedIsBad(ById(phs), phs[i].id, err.value);
          return;
        }
      }
    }
    err := None;
    ColoredSettle(phs, search.byId, search.color, |phs|);
    AllIdsSettle(phs);
  }

  lemma ColoredSettle(phs: seq<Placeholder>, byId: map<Id, Placeholder>, color: map<Id, Color>, k: int)
    requires byId == ById(phs) && SearchState(byId, color, []) && 0 <= k <= |phs|
    requires forall j :: 0 <= j < k ==> phs[j].id in color
    ensures SettledUpTo(phs, k)
  {
  }

  lemma AllIdsSettle(phs: seq<Placeholder>)
    requires SettledUpTo(phs, |phs|)
    ensures AllDeclared(ById(phs)) && !Cyclic(Deps(ById(phs)))
  {
    ByIdKeyed(phs);
    forall id | id in ById(phs) ensures Settles(ById(phs), id) {
      var j :| 0 <= j < |phs| && phs[j].id == id;
    }
    AllSettled(ById(phs));
  }

  /** ValidatePlaceholders has refused repeated ids before it calls the search; then the map
      says what the list says. */
  lemma DistinctIdsReadTheList(phs: seq<Placeholder>)
    requires forall i, j :: 0 <= i < j < |phs| ==> phs[i].id != phs[j].id
    ensures forall i :: 0 <= i < |phs| ==> phs[i].id in ById(phs) && ById(phs)[phs[i].id] == phs[i]
    ensures AllDeclared(ById(phs)) <==>
      forall i :: 0 <= i < |phs| && phs[i].visibleIf.Some? ==>
        exists j :: 0 <= j < |phs| && phs[j].id == phs[i].visibleIf.value
  {
    ByIdKeyed(phs);
    ByIdEntries(phs);
  }

  lemma {:induction false} ByIdEntries(phs: seq<Placeholder>)
    requires forall i, j :: 0 <= i < j < |phs| ==> phs[i].id != phs[j].id
    ensures forall i :: 0 <= i < |phs| ==> phs[i].id in ById(phs) && ById(phs)[phs[i].id] == phs[i]
  {
    if phs != [] {
      var rest := phs[..|phs| - 1];
      ByIdEntries(rest);
      forall i | 0 <= i < |phs| ensures phs[i].id in ById(phs) && ById(phs)[phs[i].id] == phs[i] {
        if i < |rest| { assert rest[i] == phs[i]; }
      }
    }
  }
}
