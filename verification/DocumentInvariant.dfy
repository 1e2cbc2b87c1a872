/** One inductive invariant over every table of documents_v2, kept by each transaction. */
module DocumentInvariant {
  import opened Prelude
  import opened DocumentProtocol

  type Docs = map<Id, Document>
  type Sessions = map<Id, Session>
  type Revisions = map<Id, Revision>
  type Pendings = map<Id, Pending>
  type Checkpoints = map<Id, Checkpoint>

  /** Ids and revision numbers in use lie below the next ones. */
  ghost predicate IdsBelow(t: Tables) {
    && t.nextId > ZERO_ID
    && (forall d :: d in t.docs ==> d < t.nextId)
    && (forall x :: x in t.sessions ==> x < t.nextId)
    && (forall r :: r in t.revisions ==> r < t.nextId && t.revisions[r].num < t.nextNum)
    && (forall p :: p in t.pendings ==> p < t.nextId)
    && (forall c :: c in t.checkpoints ==> c < t.nextId)
  }

  /** UNIQUE (document_id, content_hash). */
  ghost predicate UniqueHashes(revs: Revisions) {
    forall d, hash, r, q :: HasHash(revs, d, hash, r) && HasHash(revs, d, hash, q) ==> r == q
  }

  /** UNIQUE (session_id, base_revision_id, content_hash). */
  ghost predicate UniquePendings(pends: Pendings) {
    forall x, base, hash, p, q :: HasKey(pends, x, base, hash, p) && HasKey(pends, x, base, hash, q) ==> p == q
  }

  /** The head is a revision of the document; the active session, if any, is active, belongs
      to the document and has acknowledged the head. */
  ghost predicate DocumentOk(sessions: Sessions, revs: Revisions, d: Id, doc: Document) {
    && doc.head.Some?
    && doc.head.value in revs
    && revs[doc.head.value].doc == d
    && (doc.activeSession.Some? ==>
          && doc.activeSession.value in sessions
          && sessions[doc.activeSession.value].doc == d
          && sessions[doc.activeSession.value].status == Active
          && sessions[doc.activeSession.value].ack == doc.head.value)
  }

  ghost predicate DocumentsOk(docs: Docs, sessions: Sessions, revs: Revisions) {
    forall d {:trigger DocumentOk(sessions, revs, d, docs[d])} :: d in docs ==> DocumentOk(sessions, revs, d, docs[d])
  }

  /** An active session is the one its document names, so a document has at most one. */
  ghost predicate SessionOk(docs: Docs, revs: Revisions, x: Id, s: Session) {
    && s.doc in docs
    && s.ack in revs
    && revs[s.ack].doc == s.doc
    && (s.status == Active ==> docs[s.doc].activeSession == Some(x))
  }

  ghost predicate SessionsOk(docs: Docs, sessions: Sessions, revs: Revisions) {
    forall x {:trigger SessionOk(docs, revs, x, sessions[x])} :: x in sessions ==> SessionOk(docs, revs, x, sessions[x])
  }

  ghost predicate RevisionOk(docs: Docs, sessions: Sessions, revs: Revisions, rev: Revision) {
    && rev.doc in docs
    && rev.session in sessions
    && sessions[rev.session].doc == rev.doc
    && (rev.parent.Some? ==>
          && rev.parent.value in revs
          && revs[rev.parent.value].doc == rev.doc
          && revs[rev.parent.value].num < rev.num)
  }

  ghost predicate RevisionsOk(docs: Docs, sessions: Sessions, revs: Revisions) {
    forall r {:trigger RevisionOk(docs, sessions, revs, revs[r])} ::
      r in revs ==> RevisionOk(docs, sessions, revs, revs[r])
  }

  /** Revision r of document d comes right after `parent`; None stands before the first one. */
  ghost predicate Follows(revs: Revisions, d: Id, parent: Option<Id>, r: Id) {
    r in revs && revs[r].doc == d && revs[r].parent == parent
  }

  ghost predicate IsHead(docs: Docs, d: Id, r: Id) {
    d in docs && docs[d].head == Some(r)
  }

  ghost predicate HasChild(revs: Revisions, d: Id, r: Id) {
    exists c: Id :: Follows(revs, d, Some(r), c)
  }

  /** Revisions do not branch: at most one revision of a document follows any given one (so
      there is one root) ... */
  ghost predicate Unbranched(revs: Revisions) {
    forall d, parent, r, q :: Follows(revs, d, parent, r) && Follows(revs, d, parent, q) ==> r == q
  }

  /** ... and a revision has a child exactly when it is not the head. */
  ghost predicate HeadsLast(docs: Docs, revs: Revisions) {
    forall r {:trigger HasChild(revs, revs[r].doc, r)} ::
      r in revs ==> (HasChild(revs, revs[r].doc, r) <==> !IsHead(docs, revs[r].doc, r))
  }

  /** Revision r is the one that committed upload row. */
  ghost predicate CommittedAs(row: Pending, revs: Revisions, r: Id) {
    && row.consumedAt.Some?
    && r in revs
    && revs[r].doc == row.doc
    && revs[r].session == row.session
    && revs[r].parent == Some(row.base)
    && revs[r].hash == row.hash
  }

  ghost predicate PendingOk(sessions: Sessions, revs: Revisions, row: Pending) {
    && row.session in sessions && sessions[row.session].doc == row.doc
    && row.base in revs && revs[row.base].doc == row.doc
    && (row.consumedAt.Some? ==> exists r: Id :: CommittedAs(row, revs, r))
  }

  /** Every upload row is well bound, and every consumed one has its revision. */
  ghost predicate PendingsOk(sessions: Sessions, revs: Revisions, pends: Pendings) {
    forall p {:trigger PendingOk(sessions, revs, pends[p])} :: p in pends ==> PendingOk(sessions, revs, pends[p])
  }

  ghost predicate HasUpload(revs: Revisions, pends: Pendings, r: Id) {
    exists p: Id :: p in pends && CommittedAs(pends[p], revs, r)
  }

  /** Every revision but the first of its document has its consumed upload. */
  ghost predicate UploadsKept(revs: Revisions, pends: Pendings) {
    forall r {:trigger HasUpload(revs, pends, r)} ::
      r in revs && revs[r].parent.Some? ==> HasUpload(revs, pends, r)
  }

  ghost function RevisionsOf(revs: Revisions, d: Id): set<Id> {
    set r | r in revs && revs[r].doc == d
  }

  ghost function ConsumedOf(pends: Pendings, d: Id): set<Id> {
    set p | p in pends && pends[p].doc == d && pends[p].consumedAt.Some?
  }

  ghost predicate CountsOk(docs: Docs, revs: Revisions, pends: Pendings) {
    forall d :: d in docs ==> |RevisionsOf(revs, d)| == 1 + |ConsumedOf(pends, d)|
  }

  ghost function CheckpointsOf(cps: Checkpoints, d: Id): set<Id> {
    set c | c in cps && cps[c].doc == d
  }

  ghost predicate CheckpointOk(revs: Revisions, cp: Checkpoint) {
    cp.revision in revs && revs[cp.revision].doc == cp.doc
  }

  /** Each checkpoint names a revision of its document. */
  ghost predicate CheckpointsOk(docs: Docs, revs: Revisions, cps: Checkpoints) {
    forall c :: c in cps ==> cps[c].doc in docs && CheckpointOk(revs, cps[c])
  }

  /** UNIQUE (document_id, version_num). */
  ghost predicate OneEach(cps: Checkpoints) {
    forall d, version, c, e :: AtVersion(cps, d, version, c) && AtVersion(cps, d, version, e) ==> c == e
  }

  /** The checkpoint versions of a document are 1, 2, ... n. */
  ghost predicate Dense(cps: Checkpoints) {
    forall d: Id, v: nat :: v in Versions(cps, d) <==> 1 <= v <= |CheckpointsOf(cps, d)|
  }

  ghost predicate Inv(t: Tables) {
    && IdsBelow(t)
    && UniqueHashes(t.revisions)
    && UniquePendings(t.pendings)
    && DocumentsOk(t.docs, t.sessions, t.revisions)
    && SessionsOk(t.docs, t.sessions, t.revisions)
    && RevisionsOk(t.docs, t.sessions, t.revisions)
    && Unbranched(t.revisions)
    && HeadsLast(t.docs, t.revisions)
    && PendingsOk(t.sessions, t.revisions, t.pendings)
    && UploadsKept(t.revisions, t.pendings)
    && CountsOk(t.docs, t.revisions, t.pendings)
    && CheckpointsOk(t.docs, t.revisions, t.checkpoints)
    && OneEach(t.checkpoints)
    && Dense(t.checkpoints)
  }

  lemma InvEmpty()
    ensures Inv(EMPTY)
  {
    assert forall d: Id :: CheckpointsOf(EMPTY.checkpoints, d) == {};
  }

  // ------------------------------------------------------- one lemma a step

  /** Documents keep their heads and existing sessions their documents. */
  ghost predicate SameHeads(docs: Docs, docs': Docs) {
    docs'.Keys == docs.Keys && forall d :: d in docs ==> docs'[d].head == docs[d].head
  }

  ghost predicate SessionsGrow(sessions: Sessions, sessions': Sessions) {
    forall x :: x in sessions ==> x in sessions' && sessions'[x].doc == sessions[x].doc
  }

  lemma FrameRevisions(docs: Docs, sessions: Sessions, docs': Docs, sessions': Sessions, revs: Revisions)
    requires RevisionsOk(docs, sessions, revs)
    requires docs.Keys <= docs'.Keys && SessionsGrow(sessions, sessions')
    ensures RevisionsOk(docs', sessions', revs)
  {
    forall r | r in revs ensures RevisionOk(docs', sessions', revs, revs[r]) {
      assert RevisionOk(docs, sessions, revs, revs[r]);
    }
  }

  lemma FrameHeads(docs: Docs, docs': Docs, revs: Revisions)
    requires HeadsLast(docs, revs) && SameHeads(docs, docs')
    ensures HeadsLast(docs', revs)
  {
    forall r | r in revs
      ensures HasChild(revs, revs[r].doc, r) <==> !IsHead(docs', revs[r].doc, r)
    {
      assert HasChild(revs, revs[r].doc, r) <==> !IsHead(docs, revs[r].doc, r);
    }
  }

  lemma FramePendings(sessions: Sessions, sessions': Sessions, revs: Revisions, pends: Pendings)
    requires PendingsOk(sessions, revs, pends) && SessionsGrow(sessions, sessions')
    ensures PendingsOk(sessions', revs, pends)
  {
    forall p | p in pends ensures PendingOk(sessions', revs, pends[p]) {
      assert PendingOk(sessions, revs, pends[p]);
    }
  }

  /** A step that only opens, refreshes or closes sessions or changes document fields other
      than the head. */
  ghost predicate SessionStep(t: Tables, u: Tables) {
    && SameHeads(t.docs, u.docs)
    && SessionsGrow(t.sessions, u.sessions)
    && u.revisions == t.revisions
    && u.pendings == t.pendings
    && u.checkpoints == t.checkpoints
  }

  lemma SessionStepKeepsInv(t: Tables, u: Tables)
    requires Inv(t) && SessionStep(t, u) && IdsBelow(u)
    requires DocumentsOk(u.docs, u.sessions, u.revisions) && SessionsOk(u.docs, u.sessions, u.revisions)
    ensures Inv(u)
  {
    FrameRevisions(t.docs, t.sessions, u.docs, u.sessions, t.revisions);
    FrameHeads(t.docs, u.docs, t.revisions);
    FramePendings(t.sessions, u.sessions, t.revisions, t.pendings);
  }

  /** Rows may change in the columns the invariant does not speak of. */
  lemma FrameFields(docs: Docs, sessions: Sessions, docs': Docs, sessions': Sessions, revs: Revisions)
    requires DocumentsOk(docs, sessions, revs) && SessionsOk(docs, sessions, revs)
    requires SameHeads(docs, docs') && sessions'.Keys == sessions.Keys
    requires forall d :: d in docs ==> docs'[d].activeSession == docs[d].activeSession
    requires forall x :: x in sessions ==> sessions'[x] == sessions[x].(expiresAt := sessions'[x].expiresAt)
    ensures DocumentsOk(docs', sessions', revs) && SessionsOk(docs', sessions', revs)
  {
    forall d | d in docs' ensures DocumentOk(sessions', revs, d, docs'[d]) {
      assert DocumentOk(sessions, revs, d, docs[d]);
    }
    forall x | x in sessions' ensures SessionOk(docs', revs, x, sessions'[x]) {
      assert SessionOk(docs, revs, x, sessions[x]);
    }
  }

  lemma SetStatusKeepsInv(t: Tables, tenant: string, d: Id, cur: DocumentStatus, next: DocumentStatus)
    requires Inv(t)
    ensures Inv(UpdateDocumentStatus(t, tenant, d, cur, next).tables)
  {
    if d in t.docs {
      var u := t.(docs := t.docs[d := t.docs[d].(status := next)]);
      FrameFields(t.docs, t.sessions, u.docs, u.sessions, t.revisions);
      SessionStepKeepsInv(t, u);
    }
  }

  lemma InsertSessionRows(t: Tables, u: Tables, d: Id, user: string, head: Id, now: int)
    requires IdsBelow(t) && DocumentsOk(t.docs, t.sessions, t.revisions) && SessionsOk(t.docs, t.sessions, t.revisions)
    requires d in t.docs && t.docs[d].head == Some(head)
    requires forall x :: x in t.sessions && t.sessions[x].doc == d ==> t.sessions[x].status != Active
    requires u == InsertSession(t, d, user, head, now)
    ensures DocumentsOk(u.docs, u.sessions, u.revisions) && SessionsOk(u.docs, u.sessions, u.revisions)
  {
    forall e | e in u.docs ensures DocumentOk(u.sessions, u.revisions, e, u.docs[e]) {
      assert DocumentOk(t.sessions, t.revisions, e, t.docs[e]);
    }
    forall x | x in u.sessions ensures SessionOk(u.docs, u.revisions, x, u.sessions[x]) {
      if x in t.sessions { assert SessionOk(t.docs, t.revisions, x, t.sessions[x]); }
    }
  }

  /** Opening a session keeps the invariant as long as no other session of the document is
      active and the acknowledged revision is the head. */
  lemma InsertSessionKeepsInv(t: Tables, d: Id, user: string, head: Id, now: int)
    requires Inv(t) && d in t.docs && t.docs[d].head == Some(head)
    requires !exists x: Id :: IsActiveSession(t, d, x)
    ensures Inv(InsertSession(t, d, user, head, now))
  {
    var u := InsertSession(t, d, user, head, now);
    assert forall x: Id :: x in t.sessions ==> !IsActiveSession(t, d, x);
    InsertSessionRows(t, u, d, user, head, now);
    SessionStepKeepsInv(t, u);
  }

  lemma RefreshKeepsInv(t: Tables, x: Id, expiresAt: int)
    requires Inv(t) && x in t.sessions
    ensures Inv(t.(sessions := t.sessions[x := t.sessions[x].(expiresAt := expiresAt)]))
  {
    var u := t.(sessions := t.sessions[x := t.sessions[x].(expiresAt := expiresAt)]);
    FrameFields(t.docs, t.sessions, u.docs, u.sessions, t.revisions);
    SessionStepKeepsInv(t, u);
  }

  /** A document never has two active sessions. */
  lemma OneActiveSession(docs: Docs, sessions: Sessions, revs: Revisions, x: Id, y: Id)
    requires SessionsOk(docs, sessions, revs)
    requires x in sessions && y in sessions && sessions[x].doc == sessions[y].doc
    requires sessions[x].status == Active && sessions[y].status == Active
    ensures x == y
  {
    assert SessionOk(docs, revs, x, sessions[x]) && SessionOk(docs, revs, y, sessions[y]);
  }

  lemma AcquireKeepsInv(t: Tables, tenant: string, d: Id, user: string, now: int)
    requires Inv(t)
    ensures Inv(AcquireSession(t, tenant, d, user, now).tables)
  {
    if exists x: Id :: IsActiveSession(t, d, x) {
      var x: Id :| IsActiveSession(t, d, x);
      forall y: Id | IsActiveSession(t, d, y) ensures x == y {
        OneActiveSession(t.docs, t.sessions, t.revisions, x, y);
      }
      RefreshKeepsInv(t, x, now + SESSION_TTL);
    } else if d in t.docs && t.docs[d].head.Some? {
      InsertSessionKeepsInv(t, d, user, t.docs[d].head.value, now);
    }
  }

  ghost function CloseAll(sessions: Sessions, closed: set<Id>, status: SessionStatus): Sessions {
    map x | x in sessions :: if x in closed then sessions[x].(status := status) else sessions[x]
  }

  lemma ClosingRows(docs: Docs, sessions: Sessions, revs: Revisions, closed: set<Id>, status: SessionStatus)
    requires DocumentsOk(docs, sessions, revs) && SessionsOk(docs, sessions, revs) && status != Active
    ensures DocumentsOk(DetachSessions(docs, closed), CloseAll(sessions, closed, status), revs)
    ensures SessionsOk(DetachSessions(docs, closed), CloseAll(sessions, closed, status), revs)
  {
    var docs', sessions' := DetachSessions(docs, closed), CloseAll(sessions, closed, status);
    forall d | d in docs' ensures DocumentOk(sessions', revs, d, docs'[d]) {
      assert DocumentOk(sessions, revs, d, docs[d]);
    }
    forall x | x in sessions' ensures SessionOk(docs', revs, x, sessions'[x]) {
      assert SessionOk(docs, revs, x, sessions[x]);
    }
  }

  /** Sessions in `closed` stop being active and no document points at one of them. */
  lemma ClosingKeepsInv(t: Tables, u: Tables, closed: set<Id>, status: SessionStatus)
    requires Inv(t) && status != Active
    requires u == t.(sessions := CloseAll(t.sessions, closed, status), docs := DetachSessions(t.docs, closed))
    ensures Inv(u)
  {
    ClosingRows(t.docs, t.sessions, t.revisions, closed, status);
    SessionStepKeepsInv(t, u);
  }

  lemma CloseKeepsInv(t: Tables, x: Id, status: SessionStatus)
    requires Inv(t) && x in t.sessions && status != Active
    ensures Inv(CloseSession(t, x, status))
  {
    var u := CloseSession(t, x, status);
    assert u.sessions == CloseAll(t.sessions, {x}, status);
    ClosingKeepsInv(t, u, {x}, status);
  }

  lemma HeartbeatKeepsInv(t: Tables, x: Id, user: string, now: int)
    requires Inv(t)
    ensures Inv(HeartbeatSession(t, x, user, now).tables)
  {
    if x in t.sessions { RefreshKeepsInv(t, x, now + SESSION_TTL); }
  }

  lemma ReleaseKeepsInv(t: Tables, x: Id, user: string)
    requires Inv(t)
    ensures Inv(ReleaseSession(t, x, user).tables)
  {
    if x in t.sessions { CloseKeepsInv(t, x, Released); }
  }

  lemma ForceReleaseKeepsInv(t: Tables, x: Id)
    requires Inv(t)
    ensures Inv(ForceReleaseSession(t, x).tables)
  {
    if x in t.sessions { CloseKeepsInv(t, x, ForceReleased); }
  }

  lemma ExpireKeepsInv(t: Tables, now: int)
    requires Inv(t)
    ensures Inv(ExpireStaleSessions(t, now).tables)
  {
    ClosingKeepsInv(t, ExpireStaleSessions(t, now).tables, StaleSessions(t, now), Expired);
  }

  /** Revisions keep everything but the storage key. */
  ghost predicate SameGraph(revs: Revisions, revs': Revisions) {
    revs'.Keys == revs.Keys && forall r :: r in revs ==> revs'[r] == revs[r].(storageKey := revs'[r].storageKey)
  }

  lemma FrameGraph(docs: Docs, sessions: Sessions, revs: Revisions, revs': Revisions)
    requires RevisionsOk(docs, sessions, revs) && UniqueHashes(revs) && Unbranched(revs) && HeadsLast(docs, revs)
    requires SameGraph(revs, revs')
    ensures RevisionsOk(docs, sessions, revs') && UniqueHashes(revs') && Unbranched(revs') && HeadsLast(docs, revs')
  {
    forall r | r in revs' ensures RevisionOk(docs, sessions, revs', revs'[r]) {
      assert RevisionOk(docs, sessions, revs, revs[r]);
    }
    assert forall d, hash, r :: HasHash(revs', d, hash, r) ==> HasHash(revs, d, hash, r);
    assert forall d, parent, r :: Follows(revs', d, parent, r) <==> Follows(revs, d, parent, r);
    forall r | r in revs'
      ensures HasChild(revs', revs'[r].doc, r) <==> !IsHead(docs, revs'[r].doc, r)
    {
      assert HasChild(revs, revs[r].doc, r) <==> !IsHead(docs, revs[r].doc, r);
    }
  }

  lemma FrameGraphUploads(docs: Docs, sessions: Sessions, revs: Revisions, revs': Revisions, pends: Pendings)
    requires PendingsOk(sessions, revs, pends) && UploadsKept(revs, pends) && CountsOk(docs, revs, pends)
    requires SameGraph(revs, revs')
    ensures PendingsOk(sessions, revs', pends) && UploadsKept(revs', pends) && CountsOk(docs, revs', pends)
  {
    assert forall row: Pending, r :: CommittedAs(row, revs', r) <==> CommittedAs(row, revs, r);
    forall p | p in pends ensures PendingOk(sessions, revs', pends[p]) {
      assert PendingOk(sessions, revs, pends[p]);
    }
    forall r | r in revs' && revs'[r].parent.Some? ensures HasUpload(revs', pends, r) {
      assert HasUpload(revs, pends, r);
    }
    forall d | d in docs ensures |RevisionsOf(revs', d)| == 1 + |ConsumedOf(pends, d)| {
      assert RevisionsOf(revs', d) == RevisionsOf(revs, d);
    }
  }

  lemma FrameGraphRows(docs: Docs, sessions: Sessions, revs: Revisions, revs': Revisions, cps: Checkpoints)
    requires DocumentsOk(docs, sessions, revs) && SessionsOk(docs, sessions, revs) && CheckpointsOk(docs, revs, cps)
    requires SameGraph(revs, revs')
    ensures DocumentsOk(docs, sessions, revs') && SessionsOk(docs, sessions, revs') && CheckpointsOk(docs, revs', cps)
  {
    forall d | d in docs ensures DocumentOk(sessions, revs', d, docs[d]) {
      assert DocumentOk(sessions, revs, d, docs[d]);
    }
    forall x | x in sessions ensures SessionOk(docs, revs', x, sessions[x]) {
      assert SessionOk(docs, revs, x, sessions[x]);
    }
  }

  lemma SetKeyKeepsInv(t: Tables, r: Id, key: string)
    requires Inv(t)
    ensures Inv(SetRevisionStorageKey(t, r, key).tables)
  {
    var u := SetRevisionStorageKey(t, r, key).tables;
    FrameGraph(t.docs, t.sessions, t.revisions, u.revisions);
    FrameGraphUploads(t.docs, t.sessions, t.revisions, u.revisions, t.pendings);
    FrameGraphRows(t.docs, t.sessions, t.revisions, u.revisions, t.checkpoints);
  }

  lemma PresignKeepsInv(t: Tables, x: Id, user: string, d: Id, base: Id, hash: string, key: string, expiresAt: int)
    requires Inv(t)
    ensures Inv(PresignReserve(t, x, user, d, base, hash, key, expiresAt).tables)
  {
    if && x in t.sessions && t.sessions[x].doc == d && t.sessions[x].ack == base
       && !exists p: Id :: HasKey(t.pendings, x, base, hash, p)
    {
      assert SessionOk(t.docs, t.revisions, x, t.sessions[x]);
      AddPending(t.docs, t.sessions, t.revisions, t.pendings, t.nextId, Pending(x, d, base, hash, key, expiresAt, None));
    }
  }

  lemma AddPending(docs: Docs, sessions: Sessions, revs: Revisions, pends: Pendings, n: Id, row: Pending)
    requires PendingsOk(sessions, revs, pends) && UploadsKept(revs, pends) && CountsOk(docs, revs, pends)
    requires UniquePendings(pends) && n !in pends && PendingOk(sessions, revs, row) && row.consumedAt == None
    requires !exists p: Id :: HasKey(pends, row.session, row.base, row.hash, p)
    ensures PendingsOk(sessions, revs, pends[n := row]) && UploadsKept(revs, pends[n := row])
    ensures CountsOk(docs, revs, pends[n := row]) && UniquePendings(pends[n := row])
  {
    var pends' := pends[n := row];
    forall p | p in pends' ensures PendingOk(sessions, revs, pends'[p]) {
      if p != n { assert PendingOk(sessions, revs, pends[p]); }
    }
    forall r | r in revs && revs[r].parent.Some? ensures HasUpload(revs, pends', r) {
      assert HasUpload(revs, pends, r);
      var p: Id :| p in pends && CommittedAs(pends[p], revs, r);
      assert p in pends' && CommittedAs(pends'[p], revs, r);
    }
    forall d | d in docs ensures |RevisionsOf(revs, d)| == 1 + |ConsumedOf(pends', d)| {
      assert ConsumedOf(pends', d) == ConsumedOf(pends, d);
    }
    forall x, base, hash, p, q | HasKey(pends', x, base, hash, p) && HasKey(pends', x, base, hash, q)
      ensures p == q
    {
      if p != n { assert HasKey(pends, x, base, hash, p); }
      if q != n { assert HasKey(pends, x, base, hash, q); }
    }
  }

  lemma DeleteExpiredKeepsInv(t: Tables, olderThan: int)
    requires Inv(t)
    ensures Inv(DeleteExpiredPending(t, olderThan).tables)
  {
    var u := DeleteExpiredPending(t, olderThan).tables;
    assert forall p :: p in u.pendings ==> u.pendings[p] == t.pendings[p];
    assert forall x, base, hash, p :: HasKey(u.pendings, x, base, hash, p) ==> HasKey(t.pendings, x, base, hash, p);
    forall p | p in u.pendings ensures PendingOk(u.sessions, u.revisions, u.pendings[p]) {
      assert PendingOk(t.sessions, t.revisions, t.pendings[p]);
    }
    forall r | r in u.revisions && u.revisions[r].parent.Some? ensures HasUpload(u.revisions, u.pendings, r) {
      assert HasUpload(t.revisions, t.pendings, r);
      var p: Id :| p in t.pendings && CommittedAs(t.pendings[p], t.revisions, r);
      assert p in u.pendings && CommittedAs(u.pendings[p], u.revisions, r);
    }
    forall d | d in u.docs ensures |RevisionsOf(u.revisions, d)| == 1 + |ConsumedOf(u.pendings, d)| {
      assert ConsumedOf(u.pendings, d) == ConsumedOf(t.pendings, d);
    }
  }

  lemma MaxVersionIsCount(cps: Checkpoints, d: Id)
    requires Dense(cps)
    ensures MaxVersion(cps, d) == |CheckpointsOf(cps, d)|
  {
    var n := |CheckpointsOf(cps, d)|;
    if n > 0 { assert n in Versions(cps, d); }
  }

  lemma AddCheckpoint(cps: Checkpoints, n: Id, cp: Checkpoint)
    requires OneEach(cps) && Dense(cps) && n !in cps && cp.version == |CheckpointsOf(cps, cp.doc)| + 1
    ensures OneEach(cps[n := cp]) && Dense(cps[n := cp])
  {
    var cps' := cps[n := cp];
    assert cp.version !in Versions(cps, cp.doc);
    AddOneEach(cps, n, cp);
    forall d: Id, v: nat
      ensures v in Versions(cps', d) <==> 1 <= v <= |CheckpointsOf(cps', d)|
    {
      AddVersion(cps, n, cp, d);
      assert v in Versions(cps, d) <==> 1 <= v <= |CheckpointsOf(cps, d)|;
    }
  }

  lemma AddOneEach(cps: Checkpoints, n: Id, cp: Checkpoint)
    requires OneEach(cps) && n !in cps && cp.version !in Versions(cps, cp.doc)
    ensures OneEach(cps[n := cp])
  {
    var cps' := cps[n := cp];
    forall d, version, c, e | AtVersion(cps', d, version, c) && AtVersion(cps', d, version, e)
      ensures c == e
    {
      assert c != n ==> AtVersion(cps, d, version, c) && cps[c].version in Versions(cps, d);
      assert e != n ==> AtVersion(cps, d, version, e) && cps[e].version in Versions(cps, d);
    }
  }

  lemma AddVersion(cps: Checkpoints, n: Id, cp: Checkpoint, d: Id)
    requires n !in cps
    ensures CheckpointsOf(cps[n := cp], d) == CheckpointsOf(cps, d) + (if d == cp.doc then {n} else {})
    ensures Versions(cps[n := cp], d) == Versions(cps, d) + (if d == cp.doc then {cp.version} else {})
  {
    var cps' := cps[n := cp];
    forall w | w in Versions(cps, d) ensures w in Versions(cps', d) {
      var c :| c in cps && cps[c].doc == d && cps[c].version == w;
      assert cps'[c] == cps[c];
    }
    if d == cp.doc { assert cps'[n].version == cp.version; }
  }

  lemma CheckpointRows(t: Tables, d: Id, actor: string, title: string)
    requires Inv(t) && d in t.docs
    ensures var u := CreateCheckpoint(t, d, actor, title).tables;
            && u == t.(checkpoints := u.checkpoints, nextId := t.nextId + 1)
            && IdsBelow(u) && CheckpointsOk(u.docs, u.revisions, u.checkpoints)
  {
    assert DocumentOk(t.sessions, t.revisions, d, t.docs[d]);
  }

  lemma CheckpointVersions(t: Tables, d: Id, actor: string, title: string)
    requires Inv(t) && d in t.docs
    ensures var u := CreateCheckpoint(t, d, actor, title).tables; OneEach(u.checkpoints) && Dense(u.checkpoints)
  {
    assert DocumentOk(t.sessions, t.revisions, d, t.docs[d]);
    MaxVersionIsCount(t.checkpoints, d);
    AddCheckpoint(t.checkpoints, t.nextId,
                  Checkpoint(d, t.docs[d].head.value, MaxVersion(t.checkpoints, d) + 1, title, actor));
  }

  lemma CheckpointKeepsInv(t: Tables, d: Id, actor: string, title: string)
    requires Inv(t)
    ensures Inv(CreateCheckpoint(t, d, actor, title).tables)
  {
    if d in t.docs {
      CheckpointRows(t, d, actor, title);
      CheckpointVersions(t, d, actor, title);
    }
  }

  // ------------------------------------------------- appending a revision

  /** What a new last revision of document d must meet: a fresh hash, a parent that nothing
      follows yet, and, unless it is the first, the head as its parent. */
  ghost predicate Appendable(docs: Docs, revs: Revisions, rev: Revision) {
    && (forall q :: !HasHash(revs, rev.doc, rev.hash, q))
    && (forall q :: !Follows(revs, rev.doc, rev.parent, q))
    && (rev.parent.Some? ==> IsHead(docs, rev.doc, rev.parent.value))
    && (rev.parent.None? ==> RevisionsOf(revs, rev.doc) == {})
  }

  lemma AppendUnique(docs: Docs, revs: Revisions, n: Id, rev: Revision)
    requires UniqueHashes(revs) && Unbranched(revs) && n !in revs && Appendable(docs, revs, rev)
    ensures UniqueHashes(revs[n := rev]) && Unbranched(revs[n := rev])
  {
    var revs' := revs[n := rev];
    forall d, hash, r, q | HasHash(revs', d, hash, r) && HasHash(revs', d, hash, q) ensures r == q {
      assert r != n ==> HasHash(revs, d, hash, r);
      assert q != n ==> HasHash(revs, d, hash, q);
    }
    forall d, parent, r, q | Follows(revs', d, parent, r) && Follows(revs', d, parent, q) ensures r == q {
      assert r != n ==> Follows(revs, d, parent, r);
      assert q != n ==> Follows(revs, d, parent, q);
    }
  }

  lemma AppendHeads(docs: Docs, docs': Docs, sessions: Sessions, revs: Revisions, n: Id, rev: Revision)
    requires HeadsLast(docs, revs) && RevisionsOk(docs, sessions, revs) && n !in revs && Appendable(docs, revs, rev)
    requires rev.parent.Some? ==> rev.parent.value in revs && revs[rev.parent.value].doc == rev.doc
    requires IsHead(docs', rev.doc, n)
    requires forall d :: d in docs && d != rev.doc ==> d in docs' && docs'[d].head == docs[d].head
    ensures HeadsLast(docs', revs[n := rev])
  {
    var revs' := revs[n := rev];
    forall r | r in revs'
      ensures HasChild(revs', revs'[r].doc, r) <==> !IsHead(docs', revs'[r].doc, r)
    {
      var d := revs'[r].doc;
      if r == n {
        forall c ensures !Follows(revs', d, Some(n), c) {
          if c in revs { assert RevisionOk(docs, sessions, revs, revs[c]); }
        }
      } else {
        assert RevisionOk(docs, sessions, revs, revs[r]);
        assert HasChild(revs, d, r) <==> !IsHead(docs, d, r);
        if d == rev.doc {
          if HasChild(revs, d, r) {
            var c: Id :| Follows(revs, d, Some(r), c);
            assert Follows(revs', d, Some(r), c);
          } else {
            assert r in RevisionsOf(revs, d);
            assert Follows(revs', d, Some(r), n);
          }
        } else {
          assert forall c :: Follows(revs', d, Some(r), c) <==> Follows(revs, d, Some(r), c);
        }
      }
    }
  }

  /** Adding revision n, and at most consuming the one upload it commits, keeps the uploads
      matched with the revisions. */
  lemma AppendUploads(sessions: Sessions, revs: Revisions, n: Id, rev: Revision, pends: Pendings, pends': Pendings)
    requires PendingsOk(sessions, revs, pends) && UploadsKept(revs, pends) && n !in revs
    requires pends'.Keys == pends.Keys
    requires forall p :: p in pends ==>
               || pends'[p] == pends[p]
               || (pends[p].consumedAt.None? && CommittedAs(pends'[p], revs[n := rev], n)
                   && pends'[p] == pends[p].(consumedAt := pends'[p].consumedAt))
    requires rev.parent.Some? ==> HasUpload(revs[n := rev], pends', n)
    ensures PendingsOk(sessions, revs[n := rev], pends') && UploadsKept(revs[n := rev], pends')
  {
    var revs' := revs[n := rev];
    assert forall row: Pending, r :: CommittedAs(row, revs, r) ==> CommittedAs(row, revs', r);
    forall p | p in pends' ensures PendingOk(sessions, revs', pends'[p]) {
      assert PendingOk(sessions, revs, pends[p]);
    }
    forall r | r in revs' && revs'[r].parent.Some? ensures HasUpload(revs', pends', r) {
      if r != n {
        assert HasUpload(revs, pends, r);
        var p: Id :| p in pends && CommittedAs(pends[p], revs, r);
        assert p in pends' && CommittedAs(pends'[p], revs', r);
      }
    }
  }

  lemma CreateDocumentRows(docs: Docs, sessions: Sessions, revs: Revisions, d: Id, x: Id, r: Id,
                           doc: Document, session: Session, rev: Revision)
    requires DocumentsOk(docs, sessions, revs) && SessionsOk(docs, sessions, revs) && RevisionsOk(docs, sessions, revs)
    requires d !in docs && x !in sessions && r !in revs
    requires doc.head == Some(r) && doc.activeSession == Some(x)
    requires session.doc == d && session.ack == r && session.status == Active
    requires rev.doc == d && rev.parent == None && rev.session == x
    ensures DocumentsOk(docs[d := doc], sessions[x := session], revs[r := rev])
    ensures SessionsOk(docs[d := doc], sessions[x := session], revs[r := rev])
    ensures RevisionsOk(docs[d := doc], sessions[x := session], revs[r := rev])
  {
    var docs', sessions', revs' := docs[d := doc], sessions[x := session], revs[r := rev];
    forall e | e in docs' ensures DocumentOk(sessions', revs', e, docs'[e]) {
      if e != d { assert DocumentOk(sessions, revs, e, docs[e]); }
    }
    forall y | y in sessions' ensures SessionOk(docs', revs', y, sessions'[y]) {
      if y != x { assert SessionOk(docs, revs, y, sessions[y]); }
    }
    forall q | q in revs' ensures RevisionOk(docs', sessions', revs', revs'[q]) {
      if q != r { assert RevisionOk(docs, sessions, revs, revs[q]); }
    }
  }

  lemma CreateDocumentGraph(t: Tables, docs': Docs, sessions': Sessions, d: Id, r: Id, rev: Revision)
    requires IdsBelow(t) && RevisionsOk(t.docs, t.sessions, t.revisions)
    requires UniqueHashes(t.revisions) && Unbranched(t.revisions) && HeadsLast(t.docs, t.revisions)
    requires PendingsOk(t.sessions, t.revisions, t.pendings) && UploadsKept(t.revisions, t.pendings)
    requires CountsOk(t.docs, t.revisions, t.pendings) && SessionsGrow(t.sessions, sessions')
    requires d >= t.nextId && r >= t.nextId && rev.doc == d && rev.parent == None
    requires d in docs' && docs' == t.docs[d := docs'[d]] && IsHead(docs', d, r)
    ensures UniqueHashes(t.revisions[r := rev]) && Unbranched(t.revisions[r := rev])
    ensures HeadsLast(docs', t.revisions[r := rev])
    ensures PendingsOk(sessions', t.revisions[r := rev], t.pendings) && UploadsKept(t.revisions[r := rev], t.pendings)
    ensures CountsOk(docs', t.revisions[r := rev], t.pendings)
  {
    NothingYet(t, d);
    AppendUnique(t.docs, t.revisions, r, rev);
    AppendHeads(t.docs, docs', t.sessions, t.revisions, r, rev);
    FramePendings(t.sessions, sessions', t.revisions, t.pendings);
    AppendUploads(sessions', t.revisions, r, rev, t.pendings, t.pendings);
    AppendFirstCount(t.docs, docs', t.revisions, t.pendings, d, r, rev);
  }

  lemma CreateDocumentIds(t: Tables, tenant: string, user: string, formData: string, hash: string, now: int)
    requires Inv(t)
    ensures var u := CreateDocument(t, tenant, user, formData, hash, now).tables;
            && IdsBelow(u) && CheckpointsOk(u.docs, u.revisions, u.checkpoints)
            && u.pendings == t.pendings && u.checkpoints == t.checkpoints
  {
    var u := CreateDocument(t, tenant, user, formData, hash, now).tables;
    FrameCheckpoints(t.docs, u.docs, t.revisions, u.revisions, t.checkpoints);
  }

  lemma CreateDocumentKeepsInv(t: Tables, tenant: string, user: string, formData: string, hash: string, now: int)
    requires Inv(t)
    ensures Inv(CreateDocument(t, tenant, user, formData, hash, now).tables)
  {
    var u := CreateDocument(t, tenant, user, formData, hash, now).tables;
    var d, x, r := t.nextId, t.nextId + 1, t.nextId + 2;
    CreateDocumentIds(t, tenant, user, formData, hash, now);
    CreateDocumentRows(t.docs, t.sessions, t.revisions, d, x, r, u.docs[d], u.sessions[x], u.revisions[r]);
    CreateDocumentGraph(t, u.docs, u.sessions, d, r, u.revisions[r]);
  }

  /** An id not yet drawn has no rows. */
  lemma NothingYet(t: Tables, d: Id)
    requires IdsBelow(t) && RevisionsOk(t.docs, t.sessions, t.revisions)
    requires PendingsOk(t.sessions, t.revisions, t.pendings) && d >= t.nextId
    ensures RevisionsOf(t.revisions, d) == {} && ConsumedOf(t.pendings, d) == {}
    ensures forall r :: r in t.revisions ==> t.revisions[r].doc != d && t.revisions[r].parent != Some(d)
    ensures forall r :: r in t.revisions && t.revisions[r].parent.Some? ==> t.revisions[r].parent.value < d
  {
    forall r | r in t.revisions
      ensures t.revisions[r].doc != d && (t.revisions[r].parent.Some? ==> t.revisions[r].parent.value < d)
    {
      assert RevisionOk(t.docs, t.sessions, t.revisions, t.revisions[r]);
    }
    forall p | p in t.pendings ensures t.pendings[p].doc != d {
      assert PendingOk(t.sessions, t.revisions, t.pendings[p]);
    }
  }

  lemma AppendFirstCount(docs: Docs, docs': Docs, revs: Revisions, pends: Pendings, d: Id, r: Id, rev: Revision)
    requires CountsOk(docs, revs, pends) && r !in revs && rev.doc == d && docs'.Keys == docs.Keys + {d}
    requires RevisionsOf(revs, d) == {} && ConsumedOf(pends, d) == {}
    ensures CountsOk(docs', revs[r := rev], pends)
  {
    forall e | e in docs' ensures |RevisionsOf(revs[r := rev], e)| == 1 + |ConsumedOf(pends, e)| {
      if e == d {
        assert RevisionsOf(revs[r := rev], e) == {r};
      } else {
        assert RevisionsOf(revs[r := rev], e) == RevisionsOf(revs, e);
      }
    }
  }

  // ---------------------------------------------------------------- commit

  /** Moving the head of d to a new revision r that session x acknowledges. */
  lemma AdvanceRows(docs: Docs, sessions: Sessions, revs: Revisions, d: Id, x: Id, r: Id, doc: Document, rev: Revision)
    requires DocumentsOk(docs, sessions, revs) && SessionsOk(docs, sessions, revs) && RevisionsOk(docs, sessions, revs)
    requires d in docs && x in sessions && r !in revs
    requires sessions[x].doc == d && sessions[x].status == Active
    requires doc.head == Some(r) && doc.activeSession == docs[d].activeSession
    requires rev.doc == d && rev.session == x && rev.parent == docs[d].head
    requires forall q :: q in revs ==> revs[q].num < rev.num
    ensures DocumentsOk(docs[d := doc], sessions[x := sessions[x].(ack := r)], revs[r := rev])
    ensures SessionsOk(docs[d := doc], sessions[x := sessions[x].(ack := r)], revs[r := rev])
    ensures RevisionsOk(docs[d := doc], sessions[x := sessions[x].(ack := r)], revs[r := rev])
  {
    var docs', sessions', revs' := docs[d := doc], sessions[x := sessions[x].(ack := r)], revs[r := rev];
    assert SessionOk(docs, revs, x, sessions[x]) && DocumentOk(sessions, revs, d, docs[d]);
    forall e | e in docs' ensures DocumentOk(sessions', revs', e, docs'[e]) {
      assert DocumentOk(sessions, revs, e, docs[e]);
    }
    forall y | y in sessions' ensures SessionOk(docs', revs', y, sessions'[y]) {
      assert SessionOk(docs, revs, y, sessions[y]);
    }
    forall q | q in revs' ensures RevisionOk(docs', sessions', revs', revs'[q]) {
      if q != r { assert RevisionOk(docs, sessions, revs, revs[q]); }
    }
  }

  /** Committing upload p as revision r on top of the head. */
  lemma CommitGraph(t: Tables, docs': Docs, sessions': Sessions, p: Id, r: Id, rev: Revision, now: int)
    requires IdsBelow(t) && RevisionsOk(t.docs, t.sessions, t.revisions)
    requires DocumentsOk(t.docs, t.sessions, t.revisions)
    requires UniqueHashes(t.revisions) && Unbranched(t.revisions) && HeadsLast(t.docs, t.revisions)
    requires PendingsOk(t.sessions, t.revisions, t.pendings) && UploadsKept(t.revisions, t.pendings)
    requires SessionsGrow(t.sessions, sessions') && r >= t.nextId
    requires p in t.pendings && t.pendings[p].consumedAt == None
    requires CommittedAs(t.pendings[p].(consumedAt := Some(now)), map[r := rev], r)
    requires forall q :: !HasHash(t.revisions, rev.doc, rev.hash, q)
    requires rev.doc in t.docs && t.docs[rev.doc].head == rev.parent
    requires rev.doc in docs' && docs' == t.docs[rev.doc := docs'[rev.doc]] && IsHead(docs', rev.doc, r)
    ensures UniqueHashes(t.revisions[r := rev]) && Unbranched(t.revisions[r := rev])
    ensures HeadsLast(docs', t.revisions[r := rev])
    ensures var pends' := t.pendings[p := t.pendings[p].(consumedAt := Some(now))];
            PendingsOk(sessions', t.revisions[r := rev], pends') && UploadsKept(t.revisions[r := rev], pends')
  {
    var head := rev.parent.value;
    var pends' := t.pendings[p := t.pendings[p].(consumedAt := Some(now))];
    assert DocumentOk(t.sessions, t.revisions, rev.doc, t.docs[rev.doc]);
    assert !HasChild(t.revisions, rev.doc, head) by {
      assert HasChild(t.revisions, t.revisions[head].doc, head) <==> !IsHead(t.docs, t.revisions[head].doc, head);
    }
    AppendUnique(t.docs, t.revisions, r, rev);
    AppendHeads(t.docs, docs', t.sessions, t.revisions, r, rev);
    FramePendings(t.sessions, sessions', t.revisions, t.pendings);
    assert CommittedAs(pends'[p], t.revisions[r := rev], r);
    AppendUploads(sessions', t.revisions, r, rev, t.pendings, pends');
  }

  lemma CommitCounts(docs: Docs, docs': Docs, revs: Revisions, pends: Pendings, p: Id, r: Id, rev: Revision, now: int)
    requires CountsOk(docs, revs, pends) && docs'.Keys == docs.Keys && r !in revs
    requires p in pends && pends[p].consumedAt == None && pends[p].doc == rev.doc
    ensures CountsOk(docs', revs[r := rev], pends[p := pends[p].(consumedAt := Some(now))])
  {
    var revs', pends' := revs[r := rev], pends[p := pends[p].(consumedAt := Some(now))];
    forall d | d in docs' ensures |RevisionsOf(revs', d)| == 1 + |ConsumedOf(pends', d)| {
      if d == rev.doc {
        assert RevisionsOf(revs', d) == RevisionsOf(revs, d) + {r};
        assert ConsumedOf(pends', d) == ConsumedOf(pends, d) + {p};
      } else {
        assert RevisionsOf(revs', d) == RevisionsOf(revs, d);
        assert ConsumedOf(pends', d) == ConsumedOf(pends, d);
      }
    }
  }

  lemma ConsumeKeepsKeys(pends: Pendings, p: Id, now: int)
    requires UniquePendings(pends) && p in pends
    ensures UniquePendings(pends[p := pends[p].(consumedAt := Some(now))])
  {
    var pends' := pends[p := pends[p].(consumedAt := Some(now))];
    assert forall x, base, hash, q :: HasKey(pends', x, base, hash, q) ==> HasKey(pends, x, base, hash, q);
  }

  /** The conditions under which CommitUpload inserts a revision. */
  ghost predicate Accepts(t: Tables, x: Id, user: string, d: Id, p: Id, serverHash: string, now: int) {
    && p in t.pendings && t.pendings[p].session == x && t.pendings[p].doc == d && t.pendings[p].consumedAt == None
    && CommitRefusal(t, t.pendings[p], x, user, serverHash, now) == None
    && d in t.docs
    && !exists q: Id :: HasHash(t.revisions, d, t.pendings[p].hash, q)
  }

  lemma CommitCases(t: Tables, x: Id, user: string, d: Id, p: Id, serverHash: string, formData: string, now: int)
    ensures var out := CommitUpload(t, x, user, d, p, serverHash, formData, now);
            if Accepts(t, x, user, d, p, serverHash, now)
            then out == ApplyCommit(t, p, formData, now) && out.result == Ok(CommitResult(t.nextId, t.nextNum, false))
            else out.tables == t.(nextNum := out.tables.nextNum) && t.nextNum <= out.tables.nextNum
                 && (out.result.Ok? ==> out.result.value.alreadyConsumed && out.tables == t)
  {
  }

  ghost predicate Committable(t: Tables, p: Id) {
    && p in t.pendings && t.pendings[p].consumedAt == None
    && t.pendings[p].doc in t.docs && t.pendings[p].session in t.sessions
    && t.sessions[t.pendings[p].session].status == Active
    && t.sessions[t.pendings[p].session].ack == t.pendings[p].base
    && forall q :: !HasHash(t.revisions, t.pendings[p].doc, t.pendings[p].hash, q)
  }

  lemma ApplyCommitRows(t: Tables, p: Id, formData: string, now: int)
    requires Inv(t) && Committable(t, p)
    ensures var u := ApplyCommit(t, p, formData, now).tables;
            && DocumentsOk(u.docs, u.sessions, u.revisions) && SessionsOk(u.docs, u.sessions, u.revisions)
            && RevisionsOk(u.docs, u.sessions, u.revisions)
            && t.docs[t.pendings[p].doc].head == Some(t.pendings[p].base)
            && t.sessions[t.pendings[p].session].doc == t.pendings[p].doc
  {
    var u := ApplyCommit(t, p, formData, now).tables;
    var row, r := t.pendings[p], t.nextId;
    assert PendingOk(t.sessions, t.revisions, row);
    assert SessionOk(t.docs, t.revisions, row.session, t.sessions[row.session]);
    assert DocumentOk(t.sessions, t.revisions, row.doc, t.docs[row.doc]);
    AdvanceRows(t.docs, t.sessions, t.revisions, row.doc, row.session, r, u.docs[row.doc], u.revisions[r]);
  }

  lemma ApplyCommitGraph(t: Tables, p: Id, formData: string, now: int)
    requires Inv(t) && Committable(t, p)
    requires t.docs[t.pendings[p].doc].head == Some(t.pendings[p].base)
    requires t.sessions[t.pendings[p].session].doc == t.pendings[p].doc
    ensures var u := ApplyCommit(t, p, formData, now).tables;
            && UniqueHashes(u.revisions) && Unbranched(u.revisions) && HeadsLast(u.docs, u.revisions)
            && PendingsOk(u.sessions, u.revisions, u.pendings) && UploadsKept(u.revisions, u.pendings)
  {
    var u := ApplyCommit(t, p, formData, now).tables;
    CommitGraph(t, u.docs, u.sessions, p, t.nextId, u.revisions[t.nextId], now);
  }

  lemma ApplyCommitKeys(t: Tables, p: Id, formData: string, now: int)
    requires Inv(t) && Committable(t, p)
    ensures var u := ApplyCommit(t, p, formData, now).tables;
            IdsBelow(u) && UniquePendings(u.pendings) && CountsOk(u.docs, u.revisions, u.pendings)
  {
    var u := ApplyCommit(t, p, formData, now).tables;
    CommitCounts(t.docs, u.docs, t.revisions, t.pendings, p, t.nextId, u.revisions[t.nextId], now);
    ConsumeKeepsKeys(t.pendings, p, now);
  }

  /** Checkpoints do not mind rows that are added. */
  lemma FrameCheckpoints(docs: Docs, docs': Docs, revs: Revisions, revs': Revisions, cps: Checkpoints)
    requires CheckpointsOk(docs, revs, cps) && docs.Keys <= docs'.Keys
    requires forall r :: r in revs ==> r in revs' && revs'[r] == revs[r]
    ensures CheckpointsOk(docs', revs', cps)
  {
  }

  lemma ApplyCommitKeepsInv(t: Tables, p: Id, formData: string, now: int)
    requires Inv(t) && Committable(t, p)
    ensures Inv(ApplyCommit(t, p, formData, now).tables)
  {
    var u := ApplyCommit(t, p, formData, now).tables;
    ApplyCommitRows(t, p, formData, now);
    ApplyCommitGraph(t, p, formData, now);
    ApplyCommitKeys(t, p, formData, now);
    FrameCheckpoints(t.docs, u.docs, t.revisions, u.revisions, t.checkpoints);
  }

  lemma CommitKeepsInv(t: Tables, x: Id, user: string, d: Id, p: Id, serverHash: string, formData: string, now: int)
    requires Inv(t)
    ensures Inv(CommitUpload(t, x, user, d, p, serverHash, formData, now).tables)
  {
    CommitCases(t, x, user, d, p, serverHash, formData, now);
    if Accepts(t, x, user, d, p, serverHash, now) {
      ApplyCommitKeepsInv(t, p, formData, now);
    }
  }

  /** A checkpoint's own revision already carries its hash, so the restoring INSERT always
      conflicts: nothing but the number sequence moves. */
  lemma RestoreCases(t: Tables, d: Id, actor: string, version: int)
    requires Inv(t)
    ensures var out := RestoreCheckpoint(t, d, actor, version);
            && out.tables == t.(nextNum := out.tables.nextNum)
            && t.nextNum <= out.tables.nextNum
            && (out.result.Ok? ==> out.result.value.idempotent
                                   && out.result.value.revision == out.result.value.checkpointRevision)
  {
    if d in t.docs && t.docs[d].activeSession.Some? {
      forall c: Id | AtVersion(t.checkpoints, d, version, c)
        ensures var source := t.checkpoints[c].revision;
                source in t.revisions && HasHash(t.revisions, d, t.revisions[source].hash, source)
      {
      }
    }
  }

  lemma RestoreKeepsInv(t: Tables, d: Id, actor: string, version: int)
    requires Inv(t)
    ensures Inv(RestoreCheckpoint(t, d, actor, version).tables)
  {
    RestoreCases(t, d, actor, version);
  }

  lemma SessionStepsKeepInv(t: Tables, step: Step)
    requires Inv(t) && (step.DoAcquire? || step.DoHeartbeat? || step.DoRelease? || step.DoForceRelease? || step.DoExpire?)
    ensures Inv(Apply(t, step))
  {
    match step
    case DoAcquire(tenant, d, user, now) => AcquireKeepsInv(t, tenant, d, user, now);
    case DoHeartbeat(x, user, now) => HeartbeatKeepsInv(t, x, user, now);
    case DoRelease(x, user) => ReleaseKeepsInv(t, x, user);
    case DoForceRelease(x) => ForceReleaseKeepsInv(t, x);
    case DoExpire(now) => ExpireKeepsInv(t, now);
  }

  lemma UploadStepsKeepInv(t: Tables, step: Step)
    requires Inv(t) && (step.DoPresign? || step.DoCommit? || step.DoDeleteExpired?)
    ensures Inv(Apply(t, step))
  {
    match step
    case DoPresign(x, user, d, base, hash, key, expiresAt) =>
      PresignKeepsInv(t, x, user, d, base, hash, key, expiresAt);
    case DoCommit(x, user, d, p, serverHash, formData, now) =>
      CommitKeepsInv(t, x, user, d, p, serverHash, formData, now);
    case DoDeleteExpired(olderThan) => DeleteExpiredKeepsInv(t, olderThan);
  }

  lemma DocumentStepsKeepInv(t: Tables, step: Step)
    requires Inv(t) && (step.DoCreate? || step.DoSetKey? || step.DoSetStatus? || step.DoCheckpoint? || step.DoRestore?)
    ensures Inv(Apply(t, step))
  {
    match step
    case DoCreate(tenant, user, formData, hash, now) => CreateDocumentKeepsInv(t, tenant, user, formData, hash, now);
    case DoSetKey(r, key) => SetKeyKeepsInv(t, r, key);
    case DoSetStatus(tenant, d, cur, next) => SetStatusKeepsInv(t, tenant, d, cur, next);
    case DoCheckpoint(d, actor, title) => CheckpointKeepsInv(t, d, actor, title);
    case DoRestore(d, actor, version) => RestoreKeepsInv(t, d, actor, version);
  }

  /** Every transaction keeps the invariant. */
  lemma StepKeepsInv(t: Tables, step: Step)
    requires Inv(t)
    ensures Inv(Apply(t, step))
  {
    if step.DoPresign? || step.DoCommit? || step.DoDeleteExpired? {
      UploadStepsKeepInv(t, step);
    } else if step.DoCreate? || step.DoSetKey? || step.DoSetStatus? || step.DoCheckpoint? || step.DoRestore? {
      DocumentStepsKeepInv(t, step);
    } else {
      SessionStepsKeepInv(t, step);
    }
  }

  lemma {:induction false} RunKeepsInv(t: Tables, steps: seq<Step>)
    requires Inv(t)
    ensures Inv(Run(t, steps))
    decreases |steps|
  {
    if steps != [] {
      StepKeepsInv(t, steps[0]);
      RunKeepsInv(Apply(t, steps[0]), steps[1..]);
    }
  }
}
