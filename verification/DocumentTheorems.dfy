/** What the documents_v2 protocol guarantees over every run: one unbranched history per
    document, no lost update, commits that replay to the same revision for ever, dense
    checkpoints, and restores that never move the head. */
module DocumentTheorems {
  import opened Prelude
  import opened DocumentProtocol
  import opened DocumentInvariant

  ghost predicate Reachable(t: Tables) {
    exists steps: seq<Step> :: Run(EMPTY, steps) == t
  }

  lemma ReachableInv(t: Tables)
    requires Reachable(t)
    ensures Inv(t)
  {
    var steps: seq<Step> :| Run(EMPTY, steps) == t;
    InvEmpty();
    RunKeepsInv(EMPTY, steps);
  }

  // ------------------------------------------------------- single writer

  /** In every reachable state a document has at most one active session, its
      `active_session_id` names exactly that one, and that session acknowledged the head. */
  lemma SingleWriter(t: Tables, d: Id)
    requires Reachable(t) && d in t.docs
    ensures forall x: Id :: IsActiveSession(t, d, x) <==> t.docs[d].activeSession == Some(x)
    ensures forall x: Id :: IsActiveSession(t, d, x) ==> t.docs[d].head == Some(t.sessions[x].ack)
  {
    ReachableInv(t);
    assert DocumentOk(t.sessions, t.revisions, d, t.docs[d]);
    forall x: Id | IsActiveSession(t, d, x) ensures t.docs[d].activeSession == Some(x) {
      assert SessionOk(t.docs, t.revisions, x, t.sessions[x]);
    }
  }

  /** AcquireSession reads the head and inserts the session in separate statements.  If the
      head moved in between, the insert breaks the invariant, and only then. */
  lemma AcquireNeedsCurrentHead(t: Tables, d: Id, user: string, headRead: Id, now: int)
    requires Reachable(t) && d in t.docs && headRead in RevisionsOf(t.revisions, d)
    requires forall x: Id :: !IsActiveSession(t, d, x)
    ensures Inv(InsertSession(t, d, user, headRead, now)) <==> t.docs[d].head == Some(headRead)
  {
    ReachableInv(t);
    var u := InsertSession(t, d, user, headRead, now);
    if t.docs[d].head == Some(headRead) {
      InsertSessionKeepsInv(t, d, user, headRead, now);
    } else {
      assert !DocumentOk(u.sessions, u.revisions, d, u.docs[d]);
    }
  }

  ghost predicate Idle(t: Tables, d: Id) {
    forall x: Id :: !IsActiveSession(t, d, x)
  }

  ghost predicate Branches(revs: Revisions, d: Id, base: Id, r: Id) {
    && Follows(revs, d, Some(base), r)
    && exists c: Id :: c != r && Follows(revs, d, Some(base), c)
  }

  /** The rest of an AcquireSession that has read the head, and the next autosave. */
  ghost function StaleCommit(t: Tables, d: Id, user: string, headRead: Id, hash: string, key: string, expiresAt: int,
                             formData: string, now: int): Outcome<CommitResult>
    requires d in t.docs
  {
    var x, p := t.nextId, t.nextId + 1;
    var u := PresignReserve(InsertSession(t, d, user, headRead, now), x, user, d, headRead, hash, key, expiresAt).tables;
    CommitUpload(u, x, user, d, p, hash, formData, now)
  }

  /** ... and then the next autosave of that session branches the history: the stale base is
      accepted and gets a second child. */
  lemma StaleSessionBranches(t: Tables, d: Id, user: string, headRead: Id, hash: string, key: string, expiresAt: int,
                             formData: string, now: int)
    requires Reachable(t) && d in t.docs && Idle(t, d)
    requires headRead in RevisionsOf(t.revisions, d) && t.docs[d].head != Some(headRead)
    requires now <= expiresAt && forall q :: !HasHash(t.revisions, d, hash, q)
    ensures var out := StaleCommit(t, d, user, headRead, hash, key, expiresAt, formData, now);
            && out.result.Ok? && !out.result.value.alreadyConsumed
            && Branches(out.tables.revisions, d, headRead, out.result.value.revision)
  {
    var x, p := t.nextId, t.nextId + 1;
    var u := StaleReserve(t, d, user, headRead, hash, key, expiresAt, now);
    CommitCases(u, x, user, d, p, hash, formData, now);
    assert Accepts(u, x, user, d, p, hash, now);
    var c := FollowerOf(t, d, headRead);
    assert Follows(CommitUpload(u, x, user, d, p, hash, formData, now).tables.revisions, d, Some(headRead), c);
  }

  /** A revision that is not the head has a follower. */
  lemma FollowerOf(t: Tables, d: Id, r: Id) returns (c: Id)
    requires Reachable(t) && d in t.docs && r in RevisionsOf(t.revisions, d) && t.docs[d].head != Some(r)
    ensures Follows(t.revisions, d, Some(r), c) && c < t.nextId
  {
    ReachableInv(t);
    assert HasChild(t.revisions, t.revisions[r].doc, r) <==> !IsHead(t.docs, t.revisions[r].doc, r);
    c :| Follows(t.revisions, d, Some(r), c);
  }

  lemma NewSessionHasNoKeys(t: Tables, base: Id, hash: string)
    requires Reachable(t)
    ensures forall q: Id :: !HasKey(t.pendings, t.nextId, base, hash, q)
  {
    ReachableInv(t);
    forall q | q in t.pendings ensures t.pendings[q].session != t.nextId {
      assert PendingOk(t.sessions, t.revisions, t.pendings[q]);
    }
  }

  lemma StaleReserve(t: Tables, d: Id, user: string, headRead: Id, hash: string, key: string, expiresAt: int, now: int)
      returns (u: Tables)
    requires Reachable(t) && d in t.docs
    ensures u == PresignReserve(InsertSession(t, d, user, headRead, now), t.nextId, user, d, headRead, hash, key, expiresAt).tables
    ensures d in u.docs && u.revisions == t.revisions && u.nextId == t.nextId + 2
    ensures t.nextId in u.sessions && u.sessions[t.nextId] == Session(d, user, now + SESSION_TTL, headRead, Active)
    ensures t.nextId + 1 in u.pendings
    ensures u.pendings[t.nextId + 1] == Pending(t.nextId, d, headRead, hash, key, expiresAt, None)
  {
    NewSessionHasNoKeys(t, headRead, hash);
    u := PresignReserve(InsertSession(t, d, user, headRead, now), t.nextId, user, d, headRead, hash, key, expiresAt).tables;
  }

  // ------------------------------------------------------- linear history

  ghost predicate ParentBefore(revs: Revisions, rev: Revision) {
    rev.parent.Some? ==> rev.parent.value in revs && revs[rev.parent.value].num < rev.num
                         && revs[rev.parent.value].doc == rev.doc
  }

  ghost predicate ParentsBefore(revs: Revisions) {
    forall r {:trigger ParentBefore(revs, revs[r])} :: r in revs ==> ParentBefore(revs, revs[r])
  }

  lemma InvParents(t: Tables)
    requires RevisionsOk(t.docs, t.sessions, t.revisions)
    ensures ParentsBefore(t.revisions)
  {
    forall r | r in t.revisions ensures ParentBefore(t.revisions, t.revisions[r]) {
      assert RevisionOk(t.docs, t.sessions, t.revisions, t.revisions[r]);
    }
  }

  /** The parent chain that ends in r, oldest first. */
  ghost function History(revs: Revisions, r: Id): seq<Id>
    requires ParentsBefore(revs) && r in revs
    decreases revs[r].num
  {
    assert ParentBefore(revs, revs[r]);
    if revs[r].parent.Some? then History(revs, revs[r].parent.value) + [r] else [r]
  }

  /** h is a chain of revisions of d: a root first, each next one a child of the last, with
      growing revision numbers. */
  ghost predicate IsChain(revs: Revisions, d: Id, h: seq<Id>) {
    && h != []
    && (forall i :: 0 <= i < |h| ==> h[i] in revs && revs[h[i]].doc == d)
    && revs[h[0]].parent == None
    && (forall i :: 0 < i < |h| ==> revs[h[i]].parent == Some(h[i - 1]))
    && (forall i, j :: 0 <= i < j < |h| ==> revs[h[i]].num < revs[h[j]].num)
  }

  lemma {:induction false} HistoryIsChain(revs: Revisions, r: Id)
    requires ParentsBefore(revs) && r in revs
    ensures IsChain(revs, revs[r].doc, History(revs, r))
    ensures History(revs, r)[|History(revs, r)| - 1] == r
    decreases revs[r].num
  {
    assert ParentBefore(revs, revs[r]);
    if revs[r].parent.Some? {
      HistoryIsChain(revs, revs[r].parent.value);
    }
  }

  /** Walking up from any revision leads to the head, so the head's history has them all. */
  lemma {:induction false} HistoryCovers(t: Tables, d: Id, head: Id, r: Id)
    requires Inv(t) && d in t.docs && t.docs[d].head == Some(head) && r in t.revisions && t.revisions[r].doc == d
    requires ParentsBefore(t.revisions) && head in t.revisions
    ensures r in History(t.revisions, head)
    decreases t.nextNum - t.revisions[r].num
  {
    var h := History(t.revisions, head);
    HistoryIsChain(t.revisions, head);
    if r != head {
      assert HasChild(t.revisions, t.revisions[r].doc, r) <==> !IsHead(t.docs, t.revisions[r].doc, r);
      var c: Id :| Follows(t.revisions, d, Some(r), c);
      assert ParentBefore(t.revisions, t.revisions[c]);
      HistoryCovers(t, d, head, c);
      var i :| 0 <= i < |h| && h[i] == c;
      assert i > 0 && h[i - 1] == r;
    }
  }

  ghost function HistoryOf(t: Tables, d: Id): seq<Id> {
    if Inv(t) && d in t.docs then
      assert DocumentOk(t.sessions, t.revisions, d, t.docs[d]);
      assert ParentsBefore(t.revisions) by { InvParents(t); }
      History(t.revisions, t.docs[d].head.value)
    else []
  }

  /** In every reachable state the revisions of a document are one unbranched chain from the
      initial revision to the head, in the order of their numbers. */
  lemma OneChain(t: Tables, d: Id)
    requires Reachable(t) && d in t.docs
    ensures IsChain(t.revisions, d, HistoryOf(t, d))
    ensures t.docs[d].head == Some(HistoryOf(t, d)[|HistoryOf(t, d)| - 1])
    ensures forall r :: r in HistoryOf(t, d) <==> r in RevisionsOf(t.revisions, d)
  {
    ReachableInv(t);
    InvParents(t);
    assert DocumentOk(t.sessions, t.revisions, d, t.docs[d]);
    var head := t.docs[d].head.value;
    HistoryIsChain(t.revisions, head);
    forall r | r in RevisionsOf(t.revisions, d) ensures r in HistoryOf(t, d) {
      HistoryCovers(t, d, head, r);
    }
  }

  // ------------------------------------------------------- what a step keeps

  ghost predicate RevisionsKept(revs: Revisions, revs': Revisions) {
    forall r :: r in revs ==>
      && r in revs'
      && revs'[r].(storageKey := "") == revs[r].(storageKey := "")
      && (revs[r].storageKey != "" ==> revs'[r] == revs[r])
  }

  /** Upload rows are never rebound, consumed ones never touched, and ids never come back. */
  ghost predicate PendingsKept(t: Tables, u: Tables) {
    && (forall p :: p in t.pendings && t.pendings[p].consumedAt.Some? ==>
          p in u.pendings && u.pendings[p] == t.pendings[p])
    && (forall p :: p in t.pendings && p in u.pendings ==>
          u.pendings[p] == t.pendings[p].(consumedAt := u.pendings[p].consumedAt))
    && (forall p :: p in u.pendings && p < t.nextId ==> p in t.pendings)
  }

  ghost predicate CheckpointsKept(t: Tables, u: Tables) {
    forall c :: c in t.checkpoints ==> c in u.checkpoints && u.checkpoints[c] == t.checkpoints[c]
  }

  /** Rows stay: revisions, consumed uploads and checkpoints. */
  ghost predicate RowsKept(t: Tables, u: Tables) {
    t.nextId <= u.nextId && RevisionsKept(t.revisions, u.revisions) && PendingsKept(t, u) && CheckpointsKept(t, u)
  }

  ghost predicate HistoriesGrow(t: Tables, u: Tables) {
    forall d {:trigger HistoryOf(t, d)} :: d in t.docs ==> d in u.docs && HistoryOf(t, d) <= HistoryOf(u, d)
  }

  /** Everything a later state still shows of an earlier one. */
  ghost predicate Extends(t: Tables, u: Tables) {
    && RowsKept(t, u)
    && HistoriesGrow(t, u)
  }

  lemma {:induction false} SameHistory(revs: Revisions, revs': Revisions, r: Id)
    requires ParentsBefore(revs) && ParentsBefore(revs') && r in revs
    requires forall q :: q in revs ==> q in revs' && revs'[q].parent == revs[q].parent
    ensures History(revs', r) == History(revs, r)
    decreases revs[r].num
  {
    assert ParentBefore(revs, revs[r]) && ParentBefore(revs', revs'[r]);
    if revs[r].parent.Some? {
      SameHistory(revs, revs', revs[r].parent.value);
    }
  }

  /** Steps that move no head leave every history as it was. */
  lemma HistoriesSame(t: Tables, u: Tables)
    requires Inv(t) && Inv(u) && RevisionsKept(t.revisions, u.revisions)
    requires forall d :: d in t.docs ==> d in u.docs && u.docs[d].head == t.docs[d].head
    ensures HistoriesGrow(t, u)
  {
    InvParents(t);
    InvParents(u);
    forall d | d in t.docs ensures HistoryOf(u, d) == HistoryOf(t, d) {
      assert DocumentOk(t.sessions, t.revisions, d, t.docs[d]);
      SameHistory(t.revisions, u.revisions, t.docs[d].head.value);
    }
  }

  /** A commit appends exactly its revision to the history of its document. */
  lemma CommitAppends(t: Tables, p: Id, formData: string, now: int)
    requires Inv(t) && Committable(t, p)
    ensures var u := ApplyCommit(t, p, formData, now).tables;
            && Inv(u)
            && HistoryOf(u, t.pendings[p].doc) == HistoryOf(t, t.pendings[p].doc) + [t.nextId]
            && HistoriesGrow(t, u)
  {
    var u := ApplyCommit(t, p, formData, now).tables;
    var d, r := t.pendings[p].doc, t.nextId;
    ApplyCommitKeepsInv(t, p, formData, now);
    ApplyCommitRows(t, p, formData, now);
    InvParents(t);
    InvParents(u);
    forall e | e in t.docs
      ensures HistoryOf(u, e) == HistoryOf(t, e) + if e == d then [r] else []
    {
      assert DocumentOk(t.sessions, t.revisions, e, t.docs[e]);
      SameHistory(t.revisions, u.revisions, t.docs[e].head.value);
    }
  }

  lemma AcquireKeepsRows(t: Tables, tenant: string, d: Id, user: string, now: int)
    ensures RowsKept(t, AcquireSession(t, tenant, d, user, now).tables)
  {
  }

  lemma RefreshStepsKeepRows(t: Tables, step: Step)
    requires step.DoSetStatus? || step.DoHeartbeat?
    ensures RowsKept(t, Apply(t, step))
  {
  }

  lemma CloseStepsKeepRows(t: Tables, step: Step)
    requires step.DoRelease? || step.DoForceRelease? || step.DoExpire?
    ensures RowsKept(t, Apply(t, step))
  {
  }

  lemma CreateKeepsRows(t: Tables, step: Step)
    requires IdsBelow(t) && step.DoCreate?
    ensures RowsKept(t, Apply(t, step))
  {
  }

  lemma SetKeyKeepsRows(t: Tables, r: Id, key: string)
    requires IdsBelow(t)
    ensures RowsKept(t, SetRevisionStorageKey(t, r, key).tables)
  {
  }

  lemma PresignAddsAtMostAPending(t: Tables, step: Step) returns (row: Pending)
    requires step.DoPresign?
    ensures var u := Apply(t, step);
            u == t || u == t.(pendings := t.pendings[t.nextId := row], nextId := t.nextId + 1)
  {
    match step
    case DoPresign(x, user, d, base, hash, key, expiresAt) => row := Pending(x, d, base, hash, key, expiresAt, None);
  }

  lemma PresignKeepsRows(t: Tables, step: Step)
    requires IdsBelow(t) && step.DoPresign?
    ensures RowsKept(t, Apply(t, step))
  {
    var row := PresignAddsAtMostAPending(t, step);
  }

  lemma DeleteExpiredKeepsRows(t: Tables, step: Step)
    requires IdsBelow(t) && step.DoDeleteExpired?
    ensures RowsKept(t, Apply(t, step))
  {
  }

  lemma CommitKeepsRows(t: Tables, step: Step)
    requires IdsBelow(t) && step.DoCommit?
    ensures RowsKept(t, Apply(t, step))
  {
    CommitCases(t, step.session, step.user, step.doc, step.pending, step.serverHash, step.formData, step.now);
  }

  lemma CheckpointKeepsRows(t: Tables, step: Step)
    requires IdsBelow(t) && step.DoCheckpoint?
    ensures RowsKept(t, Apply(t, step))
  {
  }

  lemma StepKeepsRows(t: Tables, step: Step)
    requires Inv(t)
    ensures RowsKept(t, Apply(t, step))
  {
    match step
    case DoCreate(_, _, _, _, _) => CreateKeepsRows(t, step);
    case DoSetKey(r, key) => SetKeyKeepsRows(t, r, key);
    case DoPresign(_, _, _, _, _, _, _) => PresignKeepsRows(t, step);
    case DoDeleteExpired(_) => DeleteExpiredKeepsRows(t, step);
    case DoCommit(_, _, _, _, _, _, _) => CommitKeepsRows(t, step);
    case DoCheckpoint(_, _, _) => CheckpointKeepsRows(t, step);
    case DoRestore(d, actor, version) => RestoreCases(t, d, actor, version);
    case DoRelease(_, _) => CloseStepsKeepRows(t, step);
    case DoForceRelease(_) => CloseStepsKeepRows(t, step);
    case DoExpire(_) => CloseStepsKeepRows(t, step);
    case DoAcquire(tenant, d, user, now) => AcquireKeepsRows(t, tenant, d, user, now);
    case _ => RefreshStepsKeepRows(t, step);
  }

  lemma StepKeepsHeads(t: Tables, step: Step)
    requires IdsBelow(t) && !step.DoCommit? && !step.DoRestore?
    ensures forall d :: d in t.docs ==> d in Apply(t, step).docs && Apply(t, step).docs[d].head == t.docs[d].head
  {
  }

  lemma CommitGrows(t: Tables, x: Id, user: string, d: Id, p: Id, serverHash: string, formData: string, now: int)
    requires Inv(t)
    ensures HistoriesGrow(t, CommitUpload(t, x, user, d, p, serverHash, formData, now).tables)
  {
    CommitCases(t, x, user, d, p, serverHash, formData, now);
    if Accepts(t, x, user, d, p, serverHash, now) {
      CommitAppends(t, p, formData, now);
    } else {
      CommitKeepsInv(t, x, user, d, p, serverHash, formData, now);
      HistoriesSame(t, CommitUpload(t, x, user, d, p, serverHash, formData, now).tables);
    }
  }

  lemma RestoreGrows(t: Tables, d: Id, actor: string, version: int)
    requires Inv(t)
    ensures HistoriesGrow(t, RestoreCheckpoint(t, d, actor, version).tables)
  {
    RestoreCases(t, d, actor, version);
    RestoreKeepsInv(t, d, actor, version);
    HistoriesSame(t, RestoreCheckpoint(t, d, actor, version).tables);
  }

  lemma OtherStepsGrow(t: Tables, step: Step)
    requires Inv(t) && !step.DoCommit? && !step.DoRestore?
    ensures HistoriesGrow(t, Apply(t, step))
  {
    StepKeepsInv(t, step);
    StepKeepsRows(t, step);
    StepKeepsHeads(t, step);
    HistoriesSame(t, Apply(t, step));
  }

  lemma StepGrows(t: Tables, step: Step)
    requires Inv(t)
    ensures HistoriesGrow(t, Apply(t, step))
  {
    match step
    case DoCommit(x, user, d, p, serverHash, formData, now) =>
      CommitGrows(t, x, user, d, p, serverHash, formData, now);
    case DoRestore(d, actor, version) => RestoreGrows(t, d, actor, version);
    case _ => OtherStepsGrow(t, step);
  }

  lemma StepExtends(t: Tables, step: Step)
    requires Inv(t)
    ensures Extends(t, Apply(t, step))
  {
    StepKeepsRows(t, step);
    StepGrows(t, step);
  }

  lemma ExtendsTrans(t: Tables, u: Tables, w: Tables)
    requires IdsBelow(t) && Extends(t, u) && Extends(u, w)
    ensures Extends(t, w)
  {
    forall d | d in t.docs ensures d in w.docs && HistoryOf(t, d) <= HistoryOf(w, d) {
      assert HistoryOf(t, d) <= HistoryOf(u, d) <= HistoryOf(w, d);
    }
    forall p | p in t.pendings && p in w.pendings
      ensures w.pendings[p] == t.pendings[p].(consumedAt := w.pendings[p].consumedAt)
    {
      assert p in u.pendings;
    }
  }

  /** No lost update: over any run revisions, consumed uploads and checkpoints stay, and every
      document's history only grows at its end. */
  lemma {:induction false} RunExtends(t: Tables, steps: seq<Step>)
    requires Inv(t)
    ensures Inv(Run(t, steps)) && Extends(t, Run(t, steps))
    decreases |steps|
  {
    if steps != [] {
      var u := Apply(t, steps[0]);
      StepKeepsInv(t, steps[0]);
      StepExtends(t, steps[0]);
      RunExtends(u, steps[1..]);
      ExtendsTrans(t, u, Run(u, steps[1..]));
    }
  }

  // --------------------------------------------------------------- commits

  /** For an upload that is bound to the caller's own active session, unexpired, unconsumed
      and hashed right, the commit succeeds exactly when its base is the head and the document
      has no revision with that content; then the new head's parent is the old head. */
  lemma CommitIffBaseIsHead(t: Tables, p: Id, formData: string, now: int)
    requires Reachable(t) && p in t.pendings && t.pendings[p].consumedAt == None && now <= t.pendings[p].expiresAt
    requires IsActiveSession(t, t.pendings[p].doc, t.pendings[p].session)
    ensures var row := t.pendings[p];
            var out := CommitUpload(t, row.session, t.sessions[row.session].user, row.doc, p, row.hash, formData, now);
            && (out.result.Ok? <==> IsHead(t.docs, row.doc, row.base) && forall q :: !HasHash(t.revisions, row.doc, row.hash, q))
            && (!IsHead(t.docs, row.doc, row.base) ==> out == Outcome(t, Err(StaleBase)))
            && (out.result.Ok? ==> HistoryOf(out.tables, row.doc) == HistoryOf(t, row.doc) + [out.result.value.revision])
  {
    ReachableInv(t);
    var row := t.pendings[p];
    assert PendingOk(t.sessions, t.revisions, row);
    assert SessionOk(t.docs, t.revisions, row.session, t.sessions[row.session]);
    assert DocumentOk(t.sessions, t.revisions, row.doc, t.docs[row.doc]);
    CommitCases(t, row.session, t.sessions[row.session].user, row.doc, p, row.hash, formData, now);
    if Committable(t, p) {
      CommitAppends(t, p, formData, now);
    }
  }

  /** A consumed upload replays for ever: in any later state, whatever became of its session,
      committing it again answers with the same revision and changes nothing. */
  lemma ReplayForever(t: Tables, steps: seq<Step>, p: Id, user: string, serverHash: string, formData: string, now: int)
    returns (r: Id)
    requires Reachable(t) && p in t.pendings && t.pendings[p].consumedAt.Some?
    ensures CommittedAs(t.pendings[p], t.revisions, r)
    ensures var u := Run(t, steps);
            && p in u.pendings
            && CommitUpload(u, t.pendings[p].session, user, t.pendings[p].doc, p, serverHash, formData, now)
               == Outcome(u, Ok(CommitResult(r, t.revisions[r].num, true)))
  {
    ReachableInv(t);
    RunExtends(t, steps);
    var u := Run(t, steps);
    var row := t.pendings[p];
    assert PendingOk(t.sessions, t.revisions, row);
    r :| CommittedAs(row, t.revisions, r);
    assert u.pendings[p] == row;
    assert HasHash(u.revisions, row.doc, row.hash, r);
  }

  lemma CommitConsumes(t: Tables, x: Id, user: string, d: Id, p: Id, serverHash: string, formData: string, now: int)
    requires CommitUpload(t, x, user, d, p, serverHash, formData, now).result.Ok?
    ensures var out := CommitUpload(t, x, user, d, p, serverHash, formData, now);
            var u, res := out.tables, out.result.value;
            && p in u.pendings && u.pendings[p].session == x && u.pendings[p].doc == d && u.pendings[p].consumedAt.Some?
            && HasHash(u.revisions, d, u.pendings[p].hash, res.revision) && u.revisions[res.revision].num == res.num
  {
    CommitCases(t, x, user, d, p, serverHash, formData, now);
  }

  /** ... so a client that lost the answer of a successful commit gets that answer again. */
  lemma CommitThenReplay(t: Tables, x: Id, user: string, d: Id, p: Id, serverHash: string, formData: string, now: int,
                         steps: seq<Step>, user': string, serverHash': string, formData': string, now': int)
    requires Reachable(t) && CommitUpload(t, x, user, d, p, serverHash, formData, now).result.Ok?
    ensures var first := CommitUpload(t, x, user, d, p, serverHash, formData, now);
            var u := Run(first.tables, steps);
            CommitUpload(u, x, user', d, p, serverHash', formData', now')
            == Outcome(u, Ok(first.result.value.(alreadyConsumed := true)))
  {
    var first := CommitUpload(t, x, user, d, p, serverHash, formData, now);
    CommitConsumes(t, x, user, d, p, serverHash, formData, now);
    StepReachable(t, DoCommit(x, user, d, p, serverHash, formData, now));
    ReachableInv(first.tables);
    var r := ReplayForever(first.tables, steps, p, user', serverHash', formData', now');
    assert HasHash(first.tables.revisions, d, first.tables.pendings[p].hash, r);
  }

  lemma StepReachable(t: Tables, step: Step)
    requires Reachable(t)
    ensures Reachable(Apply(t, step))
  {
    var steps: seq<Step> :| Run(EMPTY, steps) == t;
    RunAppend(EMPTY, steps, step);
  }

  lemma {:induction false} RunAppend(t: Tables, steps: seq<Step>, step: Step)
    ensures Run(t, steps + [step]) == Apply(Run(t, steps), step)
    decreases |steps|
  {
    if steps == [] {
      assert (steps + [step])[1..] == [];
      assert Run(Apply(t, step), []) == Apply(t, step);
    } else {
      assert (steps + [step])[1..] == steps[1..] + [step];
      RunAppend(Apply(t, steps[0]), steps[1..], step);
    }
  }

  /** Whatever runs between the two phases of CommitAutosave, the hash the service verified is
      still the one on the upload row: the guard against rewritten rows never fires, and a
      fresh revision carries exactly the verified hash. */
  lemma VerifiedHashIsCommitted(t: Tables, tenant: string, d: Id, p: Id, objectHash: Option<string>, steps: seq<Step>,
                                x: Id, user: string, formData: string, now: int)
    requires Reachable(t) && BeginCommit(t, tenant, d, p, objectHash).Ok?
    ensures var h := BeginCommit(t, tenant, d, p, objectHash).value;
            var out := CommitUpload(Run(t, steps), x, user, d, p, h, formData, now);
            && out.result != Err(ContentHashMismatch)
            && (out.result.Ok? ==> HasHash(out.tables.revisions, d, h, out.result.value.revision))
  {
    ReachableInv(t);
    RunExtends(t, steps);
    var u := Run(t, steps);
    var h := BeginCommit(t, tenant, d, p, objectHash).value;
    assert p in u.pendings ==> u.pendings[p].hash == h;
    RightHashIsNoMismatch(u, x, user, d, p, formData, now);
    if CommitUpload(u, x, user, d, p, h, formData, now).result.Ok? {
      CommitConsumes(u, x, user, d, p, h, formData, now);
      CommitKeepsBinding(u, x, user, d, p, h, formData, now);
    }
  }

  lemma RightHashIsNoMismatch(u: Tables, x: Id, user: string, d: Id, p: Id, formData: string, now: int)
    ensures p in u.pendings ==>
              CommitUpload(u, x, user, d, p, u.pendings[p].hash, formData, now).result != Err(ContentHashMismatch)
    ensures forall h: string :: p !in u.pendings ==> CommitUpload(u, x, user, d, p, h, formData, now).result == Err(PendingNotFound)
  {
  }

  lemma CommitKeepsBinding(u: Tables, x: Id, user: string, d: Id, p: Id, h: string, formData: string, now: int)
    requires p in u.pendings
    ensures var w := CommitUpload(u, x, user, d, p, h, formData, now).tables;
            p in w.pendings && w.pendings[p].hash == u.pendings[p].hash
  {
    CommitCases(u, x, user, d, p, h, formData, now);
  }

  /** At most one upload is ever consumed per document and base revision. */
  lemma OneConsumedPerBase(t: Tables, p: Id, q: Id)
    requires Reachable(t) && p in t.pendings && q in t.pendings
    requires t.pendings[p].consumedAt.Some? && t.pendings[q].consumedAt.Some?
    requires t.pendings[p].doc == t.pendings[q].doc && t.pendings[p].base == t.pendings[q].base
    ensures p == q
  {
    ReachableInv(t);
    assert PendingOk(t.sessions, t.revisions, t.pendings[p]) && PendingOk(t.sessions, t.revisions, t.pendings[q]);
    var r: Id :| CommittedAs(t.pendings[p], t.revisions, r);
    var s: Id :| CommittedAs(t.pendings[q], t.revisions, s);
    var d, base := t.pendings[p].doc, t.pendings[p].base;
    assert Follows(t.revisions, d, Some(base), r) && Follows(t.revisions, d, Some(base), s);
    assert HasKey(t.pendings, t.pendings[p].session, base, t.pendings[p].hash, p);
    assert HasKey(t.pendings, t.pendings[p].session, base, t.pendings[p].hash, q);
  }

  /** A document has one revision more than consumed uploads. */
  lemma RevisionCount(t: Tables, d: Id)
    requires Reachable(t) && d in t.docs
    ensures |RevisionsOf(t.revisions, d)| == 1 + |ConsumedOf(t.pendings, d)|
  {
    ReachableInv(t);
  }

  /** PresignReserve hands back an upload that is still open, with the caller's own key. */
  lemma PresignIsOpen(t: Tables, x: Id, user: string, d: Id, base: Id, hash: string, key: string, expiresAt: int)
    requires Reachable(t)
    ensures var out := PresignReserve(t, x, user, d, base, hash, key, expiresAt);
            out.result.Ok? ==>
              && HasKey(out.tables.pendings, x, base, hash, out.result.value)
              && out.tables.pendings[out.result.value].doc == d
              && out.tables.pendings[out.result.value].consumedAt == None
              && IsHead(t.docs, d, base)
  {
    ReachableInv(t);
    var out := PresignReserve(t, x, user, d, base, hash, key, expiresAt);
    if out.result.Ok? {
      assert SessionOk(t.docs, t.revisions, x, t.sessions[x]);
      assert DocumentOk(t.sessions, t.revisions, d, t.docs[d]);
      var p := out.result.value;
      if p in t.pendings {
        assert PendingOk(t.sessions, t.revisions, t.pendings[p]);
        assert !HasChild(t.revisions, t.revisions[base].doc, base);
        assert forall r: Id :: CommittedAs(t.pendings[p], t.revisions, r) ==> Follows(t.revisions, d, Some(base), r);
      }
    }
  }

  // ---------------------------------------------------------------- sweeps

  /** ExpireStaleSessions fails with "no rows" exactly when nothing was stale, changes nothing
      then, and otherwise counts the sessions it expired; none is left stale. */
  lemma ExpireCounts(t: Tables, now: int)
    requires Reachable(t)
    ensures var out := ExpireStaleSessions(t, now);
            && StaleSessions(out.tables, now) == {}
            && if StaleSessions(t, now) == {} then out == Outcome(t, Err(NoRows))
               else out.result == Ok(|StaleSessions(t, now)|)
  {
    ReachableInv(t);
    if StaleSessions(t, now) == {} {
      NothingExpires(t, now);
    } else {
      StaleHasHolder(t, now);
    }
    ExpireLeavesNoneStale(t, now);
  }

  lemma NothingExpires(t: Tables, now: int)
    requires StaleSessions(t, now) == {}
    ensures ExpireStaleSessions(t, now) == Outcome(t, Err(NoRows))
  {
    assert DetachSessions(t.docs, {}) == t.docs;
    assert ExpireStaleSessions(t, now).tables.sessions == t.sessions;
  }

  lemma StaleHasHolder(t: Tables, now: int)
    requires Inv(t) && StaleSessions(t, now) != {}
    ensures Holders(t.docs, StaleSessions(t, now)) != {}
  {
    var x :| x in StaleSessions(t, now);
    assert SessionOk(t.docs, t.revisions, x, t.sessions[x]);
    assert t.sessions[x].doc in Holders(t.docs, StaleSessions(t, now));
  }

  lemma ExpireLeavesNoneStale(t: Tables, now: int)
    ensures StaleSessions(ExpireStaleSessions(t, now).tables, now) == {}
  {
  }

  // ----------------------------------------------------------- checkpoints

  /** The checkpoint versions of a document are exactly 1..n, each once, and each checkpoint
      names a revision in the document's history. */
  lemma CheckpointsAreDense(t: Tables, d: Id)
    requires Reachable(t) && d in t.docs
    ensures var n := |CheckpointsOf(t.checkpoints, d)|;
            && MaxVersion(t.checkpoints, d) == n
            && forall v: nat :: v in Versions(t.checkpoints, d) <==> 1 <= v <= n
    ensures forall v: nat, c, e :: AtVersion(t.checkpoints, d, v, c) && AtVersion(t.checkpoints, d, v, e) ==> c == e
    ensures forall c :: c in CheckpointsOf(t.checkpoints, d) ==> t.checkpoints[c].revision in HistoryOf(t, d)
  {
    ReachableInv(t);
    MaxVersionIsCount(t.checkpoints, d);
    OneChain(t, d);
  }

  /** In every reachable state a successful RestoreCheckpoint is idempotent: it answers with
      the checkpoint's own revision, adds none, and leaves every table as it was.  So the
      document shows the restored content only if the checkpoint's revision was the head. */
  lemma RestoreNeverMovesHead(t: Tables, d: Id, actor: string, version: int)
    requires Reachable(t) && RestoreCheckpoint(t, d, actor, version).result.Ok?
    ensures var out := RestoreCheckpoint(t, d, actor, version);
            var res := out.result.value;
            && out.tables == t.(nextNum := out.tables.nextNum)
            && res.idempotent && res.revision == res.checkpointRevision
            && res.revision in HistoryOf(t, d)
            && (exists c: Id :: AtVersion(t.checkpoints, d, version, c) && t.checkpoints[c].revision == res.revision)
            && (out.tables.docs[d].head == Some(res.revision) <==> IsHead(t.docs, d, res.checkpointRevision))
  {
    ReachableInv(t);
    RestoreCases(t, d, actor, version);
    OneChain(t, d);
    assert forall c: Id :: AtVersion(t.checkpoints, d, version, c) ==> t.checkpoints[c].revision in RevisionsOf(t.revisions, d);
  }

  lemma CreatedDocument() returns (t: Tables)
    ensures Reachable(t) && t.nextId == 4 && t.checkpoints == map[]
    ensures 1 in t.docs && t.docs[1].head == Some(3) && t.docs[1].activeSession == Some(2)
    ensures 2 in t.sessions && t.sessions[2] == Session(1, "ana", SESSION_TTL, 3, Active)
    ensures t.revisions.Keys == {3} && t.revisions[3].doc == 1 && t.revisions[3].hash == "hash-a" && t.pendings == map[]
  {
    assert Run(EMPTY, []) == EMPTY;
    StepReachable(EMPTY, DoCreate("tenant", "ana", "", "hash-a", 0));
    t := Apply(EMPTY, DoCreate("tenant", "ana", "", "hash-a", 0));
  }

  lemma CheckpointedDocument() returns (t: Tables)
    ensures Reachable(t) && t.nextId == 5
    ensures 1 in t.docs && t.docs[1].head == Some(3) && t.docs[1].activeSession == Some(2)
    ensures 2 in t.sessions && t.sessions[2] == Session(1, "ana", SESSION_TTL, 3, Active)
    ensures t.revisions.Keys == {3} && t.revisions[3].hash == "hash-a" && t.pendings == map[]
    ensures AtVersion(t.checkpoints, 1, 1, 4) && t.checkpoints[4].revision == 3
  {
    var t1 := CreatedDocument();
    StepReachable(t1, DoCheckpoint(1, "ana", "first"));
    t := Apply(t1, DoCheckpoint(1, "ana", "first"));
    CheckpointsAreDense(t, 1);
    assert CheckpointsOf(t.checkpoints, 1) == {4};
    assert t.checkpoints[4].version in Versions(t.checkpoints, 1);
  }

  lemma EditedDocument() returns (t: Tables)
    ensures Reachable(t) && 1 in t.docs && t.docs[1].head == Some(6) && t.docs[1].activeSession == Some(2)
    ensures 2 in t.sessions && t.sessions[2].user == "ana" && t.sessions[2].status == Active
    ensures 3 in t.revisions && AtVersion(t.checkpoints, 1, 1, 4) && t.checkpoints[4].revision == 3
  {
    var t2 := CheckpointedDocument();
    StepReachable(t2, DoPresign(2, "ana", 1, 3, "hash-b", "key-b", 100));
    var t3 := Apply(t2, DoPresign(2, "ana", 1, 3, "hash-b", "key-b", 100));
    assert t3.pendings == map[5 := Pending(2, 1, 3, "hash-b", "key-b", 100, None)];
    assert t3.revisions == t2.revisions && forall q: Id :: !HasHash(t3.revisions, 1, "hash-b", q);
    CommitCases(t3, 2, "ana", 1, 5, "hash-b", "", 50);
    assert Accepts(t3, 2, "ana", 1, 5, "hash-b", 50);
    StepReachable(t3, DoCommit(2, "ana", 1, 5, "hash-b", "", 50));
    t := Apply(t3, DoCommit(2, "ana", 1, 5, "hash-b", "", 50));
  }

  // -------------------------------------------------------------- the race

  /** A whole editing session of another user: acquire and reserve, commit and release. */
  function Visit(t: Tables, d: Id, user: string, base: Id, hash: string, key: string, now: int): seq<Step>
    requires d in t.docs
  {
    Opening(t.docs[d].tenant, t.nextId, user, d, base, hash, key, now) + Ending(t.nextId, user, d, t.nextId + 1, hash, now)
  }

  function Opening(tenant: string, x: Id, user: string, d: Id, base: Id, hash: string, key: string, now: int): seq<Step> {
    [DoAcquire(tenant, d, user, now), DoPresign(x, user, d, base, hash, key, now)]
  }

  function Ending(x: Id, user: string, d: Id, p: Id, hash: string, now: int): seq<Step> {
    [DoCommit(x, user, d, p, hash, "", now), DoRelease(x, user)]
  }

  lemma VisitReserves(t: Tables, d: Id, user: string, base: Id, hash: string, key: string, now: int)
      returns (u: Tables)
    requires Reachable(t) && d in t.docs && Idle(t, d) && t.docs[d].head == Some(base)
    ensures Reachable(u) && u == Run(t, Opening(t.docs[d].tenant, t.nextId, user, d, base, hash, key, now))
    ensures d in u.docs && u.docs[d].head == Some(base) && u.docs[d].activeSession == Some(t.nextId)
    ensures u.revisions == t.revisions && u.nextId == t.nextId + 2
    ensures t.nextId in u.sessions && u.sessions[t.nextId] == Session(d, user, now + SESSION_TTL, base, Active)
    ensures t.nextId + 1 in u.pendings && u.pendings[t.nextId + 1] == Pending(t.nextId, d, base, hash, key, now, None)
  {
    var s := AcquireSession(t, t.docs[d].tenant, d, user, now).tables;
    assert s == InsertSession(t, d, user, base, now);
    StepReachable(t, DoAcquire(t.docs[d].tenant, d, user, now));
    u := StaleReserve(t, d, user, base, hash, key, now, now);
    StepReachable(s, DoPresign(t.nextId, user, d, base, hash, key, now));
    RunTwo(t, s, u, DoAcquire(t.docs[d].tenant, d, user, now), DoPresign(t.nextId, user, d, base, hash, key, now));
  }

  lemma RunTwo(t: Tables, s: Tables, u: Tables, a: Step, b: Step)
    requires Apply(t, a) == s && Apply(s, b) == u
    ensures Run(t, [a, b]) == u
  {
    assert [a, b][1..] == [b] && [b][1..] == [];
    assert Run(s, [b]) == Run(u, []) == u;
  }

  lemma {:induction false} RunSplit(t: Tables, steps: seq<Step>, more: seq<Step>)
    ensures Run(t, steps + more) == Run(Run(t, steps), more)
    decreases |steps|
  {
    if steps == [] {
      assert steps + more == more;
    } else {
      assert (steps + more)[1..] == steps[1..] + more;
      RunSplit(Apply(t, steps[0]), steps[1..], more);
    }
  }

  /** An open upload on the head, with content new to the document, is committed. */
  lemma FreshCommit(u: Tables, d: Id, x: Id, p: Id, now: int)
    requires Reachable(u) && d in u.docs && x in u.sessions && p in u.pendings
    requires u.docs[d].activeSession == Some(x)
    requires var s, row := u.sessions[x], u.pendings[p];
             && s.status == Active && s.doc == d
             && row.session == x && row.doc == d && row.base == s.ack && row.consumedAt == None && now <= row.expiresAt
             && forall q :: !HasHash(u.revisions, d, row.hash, q)
    ensures var out := CommitUpload(u, x, u.sessions[x].user, d, p, u.pendings[p].hash, "", now).tables;
            && u.nextId !in u.revisions && out.revisions.Keys == u.revisions.Keys + {u.nextId}
            && (forall q :: q in u.revisions ==> out.revisions[q] == u.revisions[q])
            && out.revisions[u.nextId].hash == u.pendings[p].hash
            && d in out.docs && out.docs[d].head == Some(u.nextId) && out.docs[d].activeSession == Some(x)
            && x in out.sessions && out.sessions[x].user == u.sessions[x].user && out.sessions[x].status == Active
  {
    ReachableInv(u);
    var user, hash := u.sessions[x].user, u.pendings[p].hash;
    CommitCases(u, x, user, d, p, hash, "", now);
    assert Accepts(u, x, user, d, p, hash, now);
  }

  lemma CommitReachable(u: Tables, x: Id, user: string, d: Id, p: Id, hash: string, now: int)
    requires Reachable(u)
    ensures Reachable(CommitUpload(u, x, user, d, p, hash, "", now).tables)
  {
    StepReachable(u, DoCommit(x, user, d, p, hash, "", now));
  }

  lemma ReleaseLeavesIdle(v: Tables, d: Id, x: Id, user: string)
    requires Reachable(v) && d in v.docs && v.docs[d].activeSession == Some(x)
    requires x in v.sessions && v.sessions[x].user == user && v.sessions[x].status == Active
    ensures var w := ReleaseSession(v, x, user).tables;
            && Reachable(w) && d in w.docs && Idle(w, d) && w.docs[d].head == v.docs[d].head && w.revisions == v.revisions
  {
    StepReachable(v, DoRelease(x, user));
    SingleWriter(ReleaseSession(v, x, user).tables, d);
  }

  lemma CommitRuns(u: Tables, x: Id, user: string, d: Id, p: Id, hash: string, now: int)
    ensures var v := CommitUpload(u, x, user, d, p, hash, "", now).tables;
            Run(u, Ending(x, user, d, p, hash, now)) == ReleaseSession(v, x, user).tables
  {
    var v := CommitUpload(u, x, user, d, p, hash, "", now).tables;
    RunTwo(u, v, ReleaseSession(v, x, user).tables, DoCommit(x, user, d, p, hash, "", now), DoRelease(x, user));
  }

  lemma FreshCommitMovesHead(u: Tables, revs: Revisions, d: Id, base: Id, x: Id, p: Id, now: int) returns (w: Tables)
    requires Reachable(u) && d in u.docs && x in u.sessions && p in u.pendings && u.docs[d].activeSession == Some(x)
    requires var s, row := u.sessions[x], u.pendings[p];
             && s.status == Active && s.doc == d
             && row.session == x && row.doc == d && row.base == s.ack && row.consumedAt == None && now <= row.expiresAt
             && forall q :: !HasHash(u.revisions, d, row.hash, q)
    requires u.revisions == revs && base in RevisionsOf(revs, d)
    ensures w == Run(u, Ending(x, u.sessions[x].user, d, p, u.pendings[p].hash, now))
    ensures Reachable(w) && d in w.docs && Idle(w, d) && base in RevisionsOf(w.revisions, d) && w.docs[d].head != Some(base)
    ensures forall q, h :: HasHash(w.revisions, d, h, q) ==> HasHash(revs, d, h, q) || h == u.pendings[p].hash
  {
    var user, hash := u.sessions[x].user, u.pendings[p].hash;
    FreshCommit(u, d, x, p, now);
    CommitReachable(u, x, user, d, p, hash, now);
    var v := CommitUpload(u, x, user, d, p, hash, "", now).tables;
    ReleaseLeavesIdle(v, d, x, user);
    w := ReleaseSession(v, x, user).tables;
    CommitRuns(u, x, user, d, p, hash, now);
  }

  /** From any reachable state where nobody edits the document, such a session moves the head
      and leaves nobody editing: an AcquireSession that had read the old head goes on. */
  lemma VisitMovesHead(t: Tables, d: Id, user: string, base: Id, hash: string, key: string, now: int) returns (w: Tables)
    requires Reachable(t) && d in t.docs && Idle(t, d) && t.docs[d].head == Some(base)
    requires forall q :: !HasHash(t.revisions, d, hash, q)
    ensures w == Run(t, Visit(t, d, user, base, hash, key, now)) && Reachable(w)
    ensures d in w.docs && Idle(w, d) && base in RevisionsOf(w.revisions, d) && w.docs[d].head != Some(base)
    ensures forall q, h :: HasHash(w.revisions, d, h, q) ==> HasHash(t.revisions, d, h, q) || h == hash
  {
    HeadIsRevision(t, d, base);
    var u := VisitReserves(t, d, user, base, hash, key, now);
    w := FreshCommitMovesHead(u, t.revisions, d, base, t.nextId, t.nextId + 1, now);
    RunSplit(t, Opening(t.docs[d].tenant, t.nextId, user, d, base, hash, key, now),
             Ending(t.nextId, user, d, t.nextId + 1, hash, now));
  }

  lemma HeadIsRevision(t: Tables, d: Id, head: Id)
    requires Reachable(t) && d in t.docs && t.docs[d].head == Some(head)
    ensures head in RevisionsOf(t.revisions, d)
  {
    ReachableInv(t);
    assert DocumentOk(t.sessions, t.revisions, d, t.docs[d]);
  }

  /** The race as a run: ana's document is released; bea's AcquireSession reads its head; carl
      acquires, saves and releases; bea's insert and first autosave follow. */
  lemma RaceHappens() returns (t: Tables, steps: seq<Step>, headRead: Id)
    ensures Reachable(t) && 1 in t.docs && Idle(t, 1) && t.docs[1].head == Some(headRead)
    ensures var u := Run(t, steps);
            && Reachable(u) && 1 in u.docs && Idle(u, 1)
            && var out := StaleCommit(u, 1, "bea", headRead, "hash-c", "key-c", 100, "", 50);
               out.result.Ok? && Branches(out.tables.revisions, 1, headRead, out.result.value.revision)
  {
    var t1 := CreatedDocument();
    StepReachable(t1, DoRelease(2, "ana"));
    t := Apply(t1, DoRelease(2, "ana"));
    SingleWriter(t, 1);
    headRead := 3;
    steps := Visit(t, 1, "carl", 3, "hash-b", "key-b", 10);
    var u := VisitMovesHead(t, 1, "carl", 3, "hash-b", "key-b", 10);
    assert forall q :: !HasHash(u.revisions, 1, "hash-c", q);
    StaleSessionBranches(u, 1, "bea", headRead, "hash-c", "key-c", 100, "", 50);
  }

  /** The design promises a new head with the checkpoint's content.  A run in which a restore
      succeeds and the head stays on other content: create, checkpoint, autosave, restore. */
  lemma RestoreCanLeaveOtherContent()
    ensures exists t: Tables, d: Id, actor: string, version: int ::
              && Reachable(t) && d in t.docs
              && RestoreCheckpoint(t, d, actor, version).result.Ok?
              && !IsHead(RestoreCheckpoint(t, d, actor, version).tables.docs, d,
                         RestoreCheckpoint(t, d, actor, version).result.value.revision)
  {
    var t := EditedDocument();
    assert RestoreCheckpoint(t, 1, "ana", 1).result.Ok?;
    ReachableInv(t);
    assert forall c: Id :: AtVersion(t.checkpoints, 1, 1, c) ==> c == 4;
    RestoreNeverMovesHead(t, 1, "ana", 1);
  }
}
