/** The process-area tree of one tenant: AreaService over the document_process_areas table,
    whose foreign key keeps every parent_code naming an existing area. */
module ProcessAreas {
  import opened Prelude
  import opened FunctionalGraph

  datatype Area = Area(parent: Option<Id>, archived: bool)

  type Table = map<Id, Area>

  datatype AreaError = NotFound | Archived | ParentCycle | ConstraintViolation | LogFailed

  ghost function Parents(t: Table): Graph {
    map c | c in t && t[c].parent.Some? :: t[c].parent.value
  }

  ghost predicate ForeignKey(t: Table) {
    forall c :: c in t && t[c].parent.Some? ==> t[c].parent.value in t
  }

  ghost predicate Forest(t: Table) {
    ForeignKey(t) && !Cyclic(Parents(t))
  }

  /** CHECK (code ~ '^[a-z][a-z0-9_-]{1,63}$') */
  predicate CodeFormat(code: Id) {
    && 2 <= |code| <= 64 && 'a' <= code[0] <= 'z'
    && forall i :: 0 < i < |code| ==> 'a' <= code[i] <= 'z' || '0' <= code[i] <= '9' || code[i] in {'_', '-'}
  }

  // ------------------------------------------------------------- operations

  datatype Op =
    | Create(code: Id, parent: Option<Id>)
    | SetParent(code: Id, newParent: Option<Id>, logFails: bool)
    | Archive(code: Id, logFails: bool)

  /** What each call reports, and the table it leaves: the row is written before the governance
      log, so a failed log entry still moves the area. */
  ghost function Outcome(t: Table, op: Op): Option<AreaError> {
    match op
    case Create(code, parent) =>
      if code in t || !CodeFormat(code) || (parent.Some? && parent.value !in t && parent.value != code)
      then Some(ConstraintViolation) else None
    case SetParent(code, parent, logFails) =>
      if code !in t then Some(NotFound)
      else if t[code].archived then Some(Archived)
      else if parent.Some? && parent.value != code && parent.value !in t then Some(NotFound)
      else if parent.Some? && Reaches(Parents(t), parent.value, code) then Some(ParentCycle)
      else if logFails then Some(LogFailed)
      else None
    case Archive(code, logFails) =>
      if code !in t then Some(NotFound)
      else if t[code].archived then Some(Archived)
      else if logFails then Some(LogFailed)
      else None
  }

  ghost function After(t: Table, op: Op): Table {
    var out := Outcome(t, op);
    if out.Some? && out.value != LogFailed then t
    else match op
      case Create(code, parent) => t[code := Area(parent, false)]
      case SetParent(code, parent, _) =>
        if code in t then t[code := t[code].(parent := parent)] else t
      case Archive(code, _) =>
        if code in t then t[code := t[code].(archived := true)] else t
  }

  ghost function AfterAll(t: Table, ops: seq<Op>): Table {
    if ops == [] then t else After(AfterAll(t, ops[..|ops| - 1]), ops[|ops| - 1])
  }

  class AreaService {
    var areas: Table

    constructor ()
      ensures areas == map[]
    {
      areas := map[];
    }

    /** The recursive query: the parent, then its parent, until there is none or (UNION drops
        a row it has) the chain comes round again. */
    method ListAncestors(code: Id) returns (ancestors: seq<Id>)
      requires ForeignKey(areas)
      ensures forall a :: a in ancestors <==> ProperlyReaches(Parents(areas), code, a)
    {
      var g: map<Id, Id> := map c | c in areas && areas[c].parent.Some? :: areas[c].parent.value;
      ancestors := [];
      var next := if code in g then Some(g[code]) else None;
      while next.Some? && next.value !in ancestors
        invariant Chain(g, code, ancestors) && (forall a :: a in ancestors ==> a in areas.Keys)
        invariant next == Next(g, End(code, ancestors))
        decreases |areas.Keys| - |ancestors|
      {
        ChainMore(g, code, ancestors, next.value);
        ancestors := ancestors + [next.value];
        DistinctFit(ancestors, areas.Keys);
        next := if next.value in g then Some(g[next.value]) else None;
      }
      AncestorsAre(g, code, ancestors);
      assert g == Parents(areas);
    }

    method Insert(code: Id, parent: Option<Id>) returns (err: Option<AreaError>)
      modifies this
      ensures err == Outcome(old(areas), Create(code, parent))
      ensures areas == After(old(areas), Create(code, parent))
    {
      if code in areas || !CodeFormat(code) || (parent.Some? && parent.value !in areas && parent.value != code) {
        return Some(ConstraintViolation);
      }
      areas := areas[code := Area(parent, false)];
      err := None;
    }

    method SetParent(code: Id, parent: Option<Id>, logFails: bool) returns (err: Option<AreaError>)
      requires ForeignKey(areas)
      modifies this
      ensures err == Outcome(old(areas), Op.SetParent(code, parent, logFails))
      ensures areas == After(old(areas), Op.SetParent(code, parent, logFails))
    {
      if code !in areas { return Some(NotFound); }
      if areas[code].archived { return Some(Archived); }
      if parent.Some? {
        if parent.value == code {
          assert Path(Parents(areas), [code], code, code);
          return Some(ParentCycle);
        }
        if parent.value !in areas { return Some(NotFound); }
        var ancestors := ListAncestors(parent.value);
        var i := 0;
        while i < |ancestors|
          invariant 0 <= i <= |ancestors| && code !in ancestors[..i]
        {
          if ancestors[i] == code {
            assert ProperlyReaches(Parents(areas), parent.value, code);
            return Some(ParentCycle);
          }
          i := i + 1;
        }
        assert ancestors[..|ancestors|] == ancestors;
        ReachesIff(Parents(areas), parent.value, code);
      }
      areas := areas[code := areas[code].(parent := parent)];
      err := if logFails then Some(LogFailed) else None;
    }

    method Archive(code: Id, logFails: bool) returns (err: Option<AreaError>)
      modifies this
      ensures err == Outcome(old(areas), Op.Archive(code, logFails))
      ensures areas == After(old(areas), Op.Archive(code, logFails))
    {
      if code !in areas { return Some(NotFound); }
      if areas[code].archived { return Some(Archived); }
      areas := areas[code := areas[code].(archived := true)];
      err := if logFails then Some(LogFailed) else None;
    }
  }

  lemma {:induction false} DistinctFit(xs: seq<Id>, s: set<Id>)
    requires forall i, j :: 0 <= i < j < |xs| ==> xs[i] != xs[j]
    requires forall x :: x in xs ==> x in s
    ensures |xs| <= |s|
  {
    if xs != [] {
      var last := xs[|xs| - 1];
      DistinctFit(xs[..|xs| - 1], s - {last});
    }
  }

  // ------------------------------------------- following a chain of parents

  ghost function End(start: Id, chain: seq<Id>): Id {
    if chain == [] then start else chain[|chain| - 1]
  }

  ghost function Next(g: Graph, x: Id): Option<Id> {
    if x in g then Some(g[x]) else None
  }

  ghost predicate Chain(g: Graph, start: Id, chain: seq<Id>) {
    Walk(g, [start] + chain) && forall i, j :: 0 <= i < j < |chain| ==> chain[i] != chain[j]
  }

  lemma ChainMore(g: Graph, start: Id, chain: seq<Id>, x: Id)
    requires Chain(g, start, chain) && x !in chain && Next(g, End(start, chain)) == Some(x)
    ensures Chain(g, start, chain + [x])
  {
    WalkMore(g, [start] + chain, x);
    assert [start] + (chain + [x]) == [start] + chain + [x];
  }

  lemma ChainIsReached(g: Graph, start: Id, chain: seq<Id>, i: nat)
    requires Chain(g, start, chain) && i < |chain|
    ensures ProperlyReaches(g, start, chain[i])
  {
    var path := [start] + chain;
    WalkPart(g, path, 0, i + 2);
    assert Path(g, path[0..i + 2], start, chain[i]);
  }

  /** A chain followed until it stops or repeats holds every node reachable from its start. */
  lemma AncestorsAre(g: Graph, start: Id, chain: seq<Id>)
    requires Chain(g, start, chain)
    requires var next := Next(g, End(start, chain)); next.Some? ==> next.value in chain
    ensures forall a :: a in chain <==> ProperlyReaches(g, start, a)
  {
    forall a | a in chain ensures ProperlyReaches(g, start, a) {
      var i :| 0 <= i < |chain| && chain[i] == a;
      ChainIsReached(g, start, chain, i);
    }
    forall a | ProperlyReaches(g, start, a) ensures a in chain {
      var p :| Path(g, p, start, a) && |p| >= 2;
      StaysOnChain(g, start, chain, p);
    }
  }

  lemma EdgeIsOnly(g: Graph, a: Id, b: Id, c: Id)
    requires Edge(g, a, b) && Edge(g, a, c)
    ensures b == c && Next(g, a) == Some(b)
  {
  }

  lemma StepStaysOnChain(g: Graph, start: Id, chain: seq<Id>, a: Id, b: Id)
    requires Chain(g, start, chain)
    requires var next := Next(g, End(start, chain)); next.Some? ==> next.value in chain
    requires a in [start] + chain && Edge(g, a, b)
    ensures b in chain
  {
    var path := [start] + chain;
    var i :| 0 <= i < |path| && path[i] == a;
    if i < |chain| {
      assert Edge(g, path[i], path[i + 1]) && path[i + 1] == chain[i];
      EdgeIsOnly(g, a, b, chain[i]);
    } else {
      assert a == End(start, chain);
    }
  }

  lemma {:induction false} StaysOnChain(g: Graph, start: Id, chain: seq<Id>, p: seq<Id>)
    requires Chain(g, start, chain)
    requires var next := Next(g, End(start, chain)); next.Some? ==> next.value in chain
    requires |p| >= 2 && Walk(g, p) && p[0] == start
    ensures p[|p| - 1] in chain
  {
    var n := |p| - 1;
    if |p| > 2 {
      WalkPart(g, p, 0, n);
      StaysOnChain(g, start, chain, p[0..n]);
    }
    StepStaysOnChain(g, start, chain, p[n - 1], p[n]);
  }

  // --------------------------------------------------------------- theorems

  lemma SetParentGraph(t: Table, code: Id, parent: Option<Id>)
    requires code in t
    ensures var moved := t[code := t[code].(parent := parent)];
            Parents(moved) == if parent.Some? then Parents(t)[code := parent.value] else Parents(t) - {code}
  {
  }

  /** On a forest, moving an active area under an existing parent is refused as a cycle exactly
      when the move would have created one. */
  lemma CycleErrorIffCycle(t: Table, code: Id, parent: Id, logFails: bool)
    requires Forest(t) && code in t && !t[code].archived && parent in t
    ensures Outcome(t, SetParent(code, Some(parent), logFails)) == Some(ParentCycle)
            <==> Cyclic(Parents(t[code := t[code].(parent := Some(parent))]))
  {
    SetParentGraph(t, code, Some(parent));
    RedirectAcyclic(Parents(t), code, parent);
  }

  /** A move is refused for a missing or archived area, a missing parent, or a cycle, in this
      order; otherwise the area gets the parent, and only a lost log entry is reported. */
  lemma SetParentIff(t: Table, code: Id, parent: Option<Id>, logFails: bool)
    ensures var err, u := Outcome(t, SetParent(code, parent, logFails)), After(t, SetParent(code, parent, logFails));
            && err == (if code !in t then Some(NotFound)
                       else if t[code].archived then Some(Archived)
                       else if parent == Some(code) then Some(ParentCycle)
                       else if parent.Some? && parent.value !in t then Some(NotFound)
                       else if parent.Some? && ProperlyReaches(Parents(t), parent.value, code) then Some(ParentCycle)
                       else if logFails then Some(LogFailed)
                       else None)
            && (err.Some? && err.value != LogFailed ==> u == t)
            && (err.None? || err.value == LogFailed ==>
                  OnlyRow(t, u, code) && code in t && u[code].parent == parent && u[code].archived == t[code].archived)
  {
    if parent.Some? {
      if parent.value == code {
        assert Path(Parents(t), [code], code, code);
      } else {
        ReachesIff(Parents(t), parent.value, code);
      }
    }
  }

  lemma ArchiveIff(t: Table, code: Id, logFails: bool)
    ensures var err, u := Outcome(t, Archive(code, logFails)), After(t, Archive(code, logFails));
            && err == (if code !in t then Some(NotFound)
                       else if t[code].archived then Some(Archived)
                       else if logFails then Some(LogFailed)
                       else None)
            && (code in t && !t[code].archived ==>
                  OnlyRow(t, u, code) && u[code].archived && u[code].parent == t[code].parent)
            && (code in t && t[code].archived ==> u == t) && (code !in t ==> u == t)
  {
  }

  /** A creation takes a fresh code of 2 to 64 characters, a letter first, and a parent that is
      there, itself included. */
  lemma CreateIff(t: Table, code: Id, parent: Option<Id>)
    ensures var err, u := Outcome(t, Create(code, parent)), After(t, Create(code, parent));
            && (err.None? <==>
                  && code !in t && 2 <= |code| <= 64 && 'a' <= code[0] <= 'z'
                  && (forall i :: 0 < i < |code| ==>
                        'a' <= code[i] <= 'z' || '0' <= code[i] <= '9' || code[i] == '_' || code[i] == '-')
                  && (parent.Some? ==> parent.value in t || parent.value == code))
            && (err.Some? ==> err == Some(ConstraintViolation) && u == t)
            && (err.None? ==> OnlyRow(t, u, code) && u[code].parent == parent && !u[code].archived)
  {
  }

  /** On any table, forest or not, it is refused exactly when the area itself would come to lie
      on a cycle. */
  lemma CycleErrorIffOnCycle(t: Table, code: Id, parent: Id, logFails: bool)
    requires code in t && !t[code].archived && parent in t
    ensures Outcome(t, SetParent(code, Some(parent), logFails)) == Some(ParentCycle)
            <==> OnCycle(Parents(t[code := t[code].(parent := Some(parent))]), code)
  {
    SetParentGraph(t, code, Some(parent));
    RedirectCycleIff(Parents(t), code, parent);
  }

  /** Inserting an area keeps the forest unless the area names itself as its parent, which the
      foreign key lets through. */
  lemma CreateKeepsForestIff(t: Table, code: Id, parent: Option<Id>)
    requires Forest(t)
    ensures ForeignKey(After(t, Create(code, parent)))
    ensures Outcome(t, Create(code, parent)).None? ==>
              (Forest(After(t, Create(code, parent))) <==> parent != Some(code))
  {
    if Outcome(t, Create(code, parent)).None? {
      var u := After(t, Create(code, parent));
      if parent.None? {
        assert Parents(u) == Parents(t);
      } else {
        assert Parents(u) == Parents(t)[code := parent.value];
        if parent.value == code {
          var p := [code, code];
          assert Edge(Parents(u), code, code);
          assert ClosedWalk(Parents(u), p);
        } else {
          NewLeafAcyclic(Parents(t), code, parent.value);
        }
      }
    }
  }

  ghost predicate SelfParented(op: Op) {
    op.Create? && op.parent == Some(op.code)
  }

  lemma StepKeepsForest(t: Table, op: Op)
    requires Forest(t) && !SelfParented(op)
    ensures Forest(After(t, op))
  {
    match op
    case Create(code, parent) =>
      CreateKeepsForestIff(t, code, parent);
    case SetParent(code, parent, logFails) =>
      if code in t && After(t, op) != t {
        SetParentGraph(t, code, parent);
        if parent.Some? {
          assert !Reaches(Parents(t), parent.value, code);
          if parent.value == code {
            assert Path(Parents(t), [code], code, code);
            assert false;
          } else {
            RedirectAcyclic(Parents(t), code, parent.value);
          }
        } else {
          SubgraphAcyclic(Parents(t), Parents(t) - {code});
        }
      }
    case Archive(code, logFails) =>
      assert Parents(After(t, op)) == Parents(t);
  }

  /** Along every sequential run the area table stays a forest. */
  lemma {:induction false} RunKeepsForest(t: Table, ops: seq<Op>)
    requires Forest(t) && forall i :: 0 <= i < |ops| ==> !SelfParented(ops[i])
    ensures Forest(AfterAll(t, ops))
  {
    if ops != [] {
      RunKeepsForest(t, ops[..|ops| - 1]);
      StepKeepsForest(AfterAll(t, ops[..|ops| - 1]), ops[|ops| - 1]);
    }
  }

  /** Archiving freezes an area's own parent: no later move changes it. */
  lemma {:induction false} ArchivedKeepsParent(t: Table, ops: seq<Op>, code: Id)
    requires code in t && t[code].archived
    ensures code in AfterAll(t, ops) && AfterAll(t, ops)[code] == t[code]
  {
    if ops != [] {
      ArchivedKeepsParent(t, ops[..|ops| - 1], code);
    }
  }
}
