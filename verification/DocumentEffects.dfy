/** What each documents_v2 transaction writes and refuses, row by row and column by column, in
    the terms of the tables alone. */
module DocumentEffects {
  import opened Prelude
  import opened DocumentProtocol
  import opened DocumentInvariant
  import opened DocumentTheorems

  // ----------------------------------------------------------------- commits

  /** Upload p was reserved by session x for document d, and not consumed since. */
  ghost predicate OpenUpload(t: Tables, p: Id, x: Id, d: Id) {
    p in t.pendings && t.pendings[p].session == x && t.pendings[p].doc == d && t.pendings[p].consumedAt == None
  }

  ghost predicate HasContent(t: Tables, d: Id, hash: string) {
    exists r :: r in t.revisions && t.revisions[r].doc == d && t.revisions[r].hash == hash
  }

  lemma ContentIff(t: Tables, d: Id, hash: string)
    ensures HasContent(t, d, hash) <==> exists q: Id :: HasHash(t.revisions, d, hash, q)
  {
    if HasContent(t, d, hash) {
      var r :| r in t.revisions && t.revisions[r].doc == d && t.revisions[r].hash == hash;
      assert HasHash(t.revisions, d, hash, r);
    }
  }

  lemma OpenUploadRows(t: Tables, p: Id, x: Id, d: Id)
    requires Reachable(t) && OpenUpload(t, p, x, d)
    ensures d in t.docs && x in t.sessions && t.sessions[x].doc == d && t.docs[d].head.Some?
    ensures t.sessions[x].status == Active ==> t.docs[d].head == Some(t.sessions[x].ack)
  {
    ReachableInv(t);
    assert PendingOk(t.sessions, t.revisions, t.pendings[p]);
    assert SessionOk(t.docs, t.revisions, x, t.sessions[x]);
    assert DocumentOk(t.sessions, t.revisions, d, t.docs[d]);
  }

  /** A commit makes a new revision exactly when the upload is open, in time and hashed right, its
      session still active and the caller's, its base still the head, and its content new. */
  lemma FreshCommitIff(t: Tables, x: Id, user: string, d: Id, p: Id, serverHash: string, formData: string, now: int)
    requires Reachable(t)
    ensures var out := CommitUpload(t, x, user, d, p, serverHash, formData, now);
            out.result.Ok? && !out.result.value.alreadyConsumed
            <==> && OpenUpload(t, p, x, d) && now <= t.pendings[p].expiresAt
                 && x in t.sessions && t.sessions[x].status == Active && t.sessions[x].user == user
                 && d in t.docs && t.docs[d].head == Some(t.pendings[p].base)
                 && serverHash == t.pendings[p].hash && !HasContent(t, d, t.pendings[p].hash)
  {
    if OpenUpload(t, p, x, d) {
      OpenUploadRows(t, p, x, d);
      ContentIff(t, d, t.pendings[p].hash);
    }
  }

  /** What it writes: the revision from the upload and the snapshot, the document's head and
      form data, the session's acknowledgement, the upload's consumption; no other row. */
  lemma FreshCommitWrites(t: Tables, x: Id, user: string, d: Id, p: Id, serverHash: string, formData: string, now: int)
    requires Reachable(t)
    ensures var out := CommitUpload(t, x, user, d, p, serverHash, formData, now);
            var u := out.tables;
            out.result.Ok? && !out.result.value.alreadyConsumed ==>
              var r := out.result.value.revision;
              && r !in t.revisions && OnlyRow(t.revisions, u.revisions, r)
              && u.revisions[r].doc == d && u.revisions[r].num == out.result.value.num
              && u.revisions[r].parent == Some(t.pendings[p].base) && u.revisions[r].session == x
              && u.revisions[r].storageKey == t.pendings[p].storageKey && u.revisions[r].hash == serverHash
              && u.revisions[r].formData == formData
              && (forall q :: q in t.revisions ==> t.revisions[q].num < u.revisions[r].num)
              && OnlyRow(t.docs, u.docs, d) && d in t.docs
              && u.docs[d].head == Some(r) && u.docs[d].formData == formData
              && u.docs[d].(head := None, formData := "") == t.docs[d].(head := None, formData := "")
              && OnlyRow(t.sessions, u.sessions, x) && x in t.sessions
              && u.sessions[x].ack == r && u.sessions[x].(ack := 0) == t.sessions[x].(ack := 0)
              && OnlyRow(t.pendings, u.pendings, p) && p in t.pendings
              && u.pendings[p].consumedAt == Some(now)
              && u.pendings[p].(consumedAt := None) == t.pendings[p].(consumedAt := None)
              && u.checkpoints == t.checkpoints
  {
    ReachableInv(t);
    CommitCases(t, x, user, d, p, serverHash, formData, now);
  }

  /** A consumed upload answers with the revision that has its content, and changes nothing. */
  lemma ReplayIff(t: Tables, x: Id, user: string, d: Id, p: Id, serverHash: string, formData: string, now: int)
    requires Reachable(t)
    ensures var out := CommitUpload(t, x, user, d, p, serverHash, formData, now);
            && (out.result.Ok? && out.result.value.alreadyConsumed
                <==> p in t.pendings && t.pendings[p].session == x && t.pendings[p].doc == d && t.pendings[p].consumedAt.Some?)
            && (out.result.Ok? && out.result.value.alreadyConsumed ==>
                  && out.tables == t && out.result.value.revision in t.revisions
                  && t.revisions[out.result.value.revision].doc == d
                  && t.revisions[out.result.value.revision].hash == t.pendings[p].hash
                  && t.revisions[out.result.value.revision].num == out.result.value.num)
  {
    ReachableInv(t);
    if p in t.pendings && t.pendings[p].session == x && t.pendings[p].doc == d && t.pendings[p].consumedAt.Some? {
      assert PendingOk(t.sessions, t.revisions, t.pendings[p]);
      var r: Id :| CommittedAs(t.pendings[p], t.revisions, r);
      assert HasHash(t.revisions, d, t.pendings[p].hash, r);
    }
  }

  /** The refusals in order; none changes a row. */
  lemma CommitRefusals(t: Tables, x: Id, user: string, d: Id, p: Id, serverHash: string, formData: string, now: int)
    requires Reachable(t)
    ensures var out := CommitUpload(t, x, user, d, p, serverHash, formData, now);
            out.result.Err? ==>
              && out.tables == t.(nextNum := out.tables.nextNum)
              && out.result.error ==
                 if p !in t.pendings then PendingNotFound
                 else if t.pendings[p].session != x || t.pendings[p].doc != d then Misbound
                 else if t.pendings[p].expiresAt < now then ExpiredUpload
                 else if x !in t.sessions || t.sessions[x].status != Active then SessionInactive
                 else if t.sessions[x].user != user then SessionNotHolder
                 else if d !in t.docs || t.docs[d].head != Some(t.pendings[p].base) then StaleBase
                 else if serverHash != t.pendings[p].hash then ContentHashMismatch
                 else UniqueViolation
  {
    ReplayIff(t, x, user, d, p, serverHash, formData, now);
    if OpenUpload(t, p, x, d) { OpenUploadRows(t, p, x, d); }
  }

  // ---------------------------------------------------------------- documents

  lemma CreateDocumentWrites(t: Tables, tenant: string, user: string, formData: string, hash: string, now: int)
    requires Reachable(t)
    ensures var out := CreateDocument(t, tenant, user, formData, hash, now);
            var u := out.tables;
            && out.result.Ok?
            && var (d, r, x) := (out.result.value.doc, out.result.value.revision, out.result.value.session);
            && d !in t.docs && OnlyRow(t.docs, u.docs, d)
            && u.docs[d].tenant == tenant && u.docs[d].status == Draft && u.docs[d].formData == formData
            && u.docs[d].createdBy == user && u.docs[d].head == Some(r) && u.docs[d].activeSession == Some(x)
            && x !in t.sessions && OnlyRow(t.sessions, u.sessions, x)
            && u.sessions[x].doc == d && u.sessions[x].user == user && u.sessions[x].expiresAt == now + 300
            && u.sessions[x].ack == r && u.sessions[x].status == Active
            && r !in t.revisions && OnlyRow(t.revisions, u.revisions, r)
            && u.revisions[r].doc == d && u.revisions[r].parent == None && u.revisions[r].session == x
            && u.revisions[r].hash == hash && u.revisions[r].formData == formData && u.revisions[r].storageKey == ""
            && u.pendings == t.pendings && u.checkpoints == t.checkpoints
  {
    ReachableInv(t);
  }

  /** The key of a revision is set once. */
  lemma SetStorageKeyIff(t: Tables, r: Id, key: string)
    ensures var out := SetRevisionStorageKey(t, r, key);
            && (out.result == Ok(()) <==> r in t.revisions && t.revisions[r].storageKey == "")
            && (out.result.Err? ==> out == Outcome(t, Err(StorageKeyAlreadySet)))
            && (out.result.Ok? ==>
                  && OnlyRow(t.revisions, out.tables.revisions, r) && out.tables.revisions[r].storageKey == key
                  && out.tables.revisions[r].(storageKey := "") == t.revisions[r]
                  && out.tables.(revisions := t.revisions) == t)
  {
  }

  /** A document changes status exactly from the status the caller names. */
  lemma ChangeStatusIff(t: Tables, tenant: string, d: Id, cur: DocumentStatus, next: DocumentStatus)
    ensures var out := UpdateDocumentStatus(t, tenant, d, cur, next);
            && (out.result == Ok(()) <==> d in t.docs && t.docs[d].tenant == tenant && t.docs[d].status == cur)
            && (out.result.Err? ==> out == Outcome(t, Err(InvalidStateTransition)))
            && (out.result.Ok? ==>
                  && OnlyRow(t.docs, out.tables.docs, d) && out.tables.docs[d].status == next
                  && out.tables.docs[d].(status := cur) == t.docs[d] && out.tables.(docs := t.docs) == t)
  {
  }

  // ----------------------------------------------------------------- sessions

  ghost predicate Edits(t: Tables, d: Id, x: Id) {
    x in t.sessions && t.sessions[x].doc == d && t.sessions[x].status == Active
  }

  lemma AcquireEdited(t: Tables, tenant: string, d: Id, user: string, now: int, x: Id)
    requires Reachable(t) && Edits(t, d, x)
    ensures var out := AcquireSession(t, tenant, d, user, now);
            if t.sessions[x].user != user then out == Outcome(t, Err(SessionTaken(t.sessions[x].user)))
            else
              && out.result.Ok? && out.result.value.session == x && d in t.docs && t.docs[d].head == Some(out.result.value.ack)
              && out.result.value.expiresAt == now + 300
              && OnlyRow(t.sessions, out.tables.sessions, x) && out.tables.sessions[x].expiresAt == now + 300
              && out.tables.sessions[x].(expiresAt := t.sessions[x].expiresAt) == t.sessions[x]
              && out.tables.(sessions := t.sessions) == t
  {
    ReachableInv(t);
    EditorsAre(t, d);
    assert DocumentOk(t.sessions, t.revisions, d, t.docs[d]);
    assert IsActiveSession(t, d, x);
    assert forall y: Id :: IsActiveSession(t, d, y) ==> Edits(t, d, y);
  }

  lemma AcquireFree(t: Tables, tenant: string, d: Id, user: string, now: int)
    requires Reachable(t) && forall x :: !Edits(t, d, x)
    ensures var out := AcquireSession(t, tenant, d, user, now);
            var u := out.tables;
            && (out.result.Ok? <==> d in t.docs && t.docs[d].tenant == tenant)
            && (out.result.Err? ==> out == Outcome(t, Err(NoRows)))
            && (out.result.Ok? ==>
                  var x := out.result.value.session;
                  && x !in t.sessions && OnlyRow(t.sessions, u.sessions, x)
                  && u.sessions[x].doc == d && u.sessions[x].user == user && u.sessions[x].expiresAt == now + 300
                  && t.docs[d].head == Some(u.sessions[x].ack) && u.sessions[x].status == Active
                  && out.result.value.ack == u.sessions[x].ack && out.result.value.expiresAt == now + 300
                  && OnlyRow(t.docs, u.docs, d) && u.docs[d].activeSession == Some(x)
                  && u.docs[d].(activeSession := None) == t.docs[d].(activeSession := None)
                  && u.revisions == t.revisions && u.pendings == t.pendings && u.checkpoints == t.checkpoints)
  {
    ReachableInv(t);
    forall x: Id ensures !IsActiveSession(t, d, x) {
      assert !Edits(t, d, x);
    }
    if d in t.docs { assert DocumentOk(t.sessions, t.revisions, d, t.docs[d]); }
  }

  lemma HeartbeatIff(t: Tables, x: Id, user: string, now: int)
    ensures var out := HeartbeatSession(t, x, user, now);
            && (out.result == Ok(()) <==> x in t.sessions && t.sessions[x].user == user && t.sessions[x].status == Active)
            && (out.result.Err? ==> out == Outcome(t, Err(SessionInactive)))
            && (out.result.Ok? ==>
                  && OnlyRow(t.sessions, out.tables.sessions, x) && out.tables.sessions[x].expiresAt == now + 300
                  && out.tables.sessions[x].(expiresAt := t.sessions[x].expiresAt) == t.sessions[x]
                  && out.tables.(sessions := t.sessions) == t)
  {
  }

  /** Exactly the sessions in `closed` got this status, and the documents they edited let go. */
  ghost predicate Closed(t: Tables, u: Tables, closed: set<Id>, status: SessionStatus) {
    && u.(docs := t.docs, sessions := t.sessions) == t
    && u.sessions.Keys == t.sessions.Keys && u.docs.Keys == t.docs.Keys
    && (forall x :: x in t.sessions ==> u.sessions[x].status == if x in closed then status else t.sessions[x].status)
    && (forall x :: x in t.sessions ==> u.sessions[x].(status := Active) == t.sessions[x].(status := Active))
    && (forall d :: d in t.docs ==>
          u.docs[d].activeSession == if t.docs[d].activeSession.Some? && t.docs[d].activeSession.value in closed then None
                                     else t.docs[d].activeSession)
    && (forall d :: d in t.docs ==> u.docs[d].(activeSession := None) == t.docs[d].(activeSession := None))
  }

  /** Only the holder releases, and only an active session. */
  lemma ReleaseIff(t: Tables, x: Id, user: string)
    ensures var out := ReleaseSession(t, x, user);
            && (out.result == Ok(()) <==> x in t.sessions && t.sessions[x].user == user && t.sessions[x].status == Active)
            && (out.result.Err? ==> out == Outcome(t, Err(SessionInactive)))
            && (out.result.Ok? ==> Closed(t, out.tables, {x}, Released))
  {
  }

  lemma ForceReleaseIff(t: Tables, x: Id)
    ensures var out := ForceReleaseSession(t, x);
            && (out.result == Ok(()) <==> x in t.sessions && t.sessions[x].status == Active)
            && (out.result.Err? ==> out == Outcome(t, Err(SessionInactive)))
            && (out.result.Ok? ==> Closed(t, out.tables, {x}, ForceReleased))
  {
  }

  lemma ExpireCloses(t: Tables, now: int)
    ensures Closed(t, ExpireStaleSessions(t, now).tables,
                   (set x | x in t.sessions && t.sessions[x].status == Active && t.sessions[x].expiresAt < now), Expired)
  {
    assert StaleSessions(t, now) == set x | x in t.sessions && t.sessions[x].status == Active && t.sessions[x].expiresAt < now;
  }

  // ------------------------------------------------------------------ uploads

  ghost predicate ReservedAs(t: Tables, p: Id, x: Id, base: Id, hash: string) {
    p in t.pendings && t.pendings[p].session == x && t.pendings[p].base == base && t.pendings[p].hash == hash
  }

  /** An upload is reserved exactly for the active session of the caller on that document, on the
      head. */
  lemma PresignIff(t: Tables, x: Id, user: string, d: Id, base: Id, hash: string, key: string, expiresAt: int)
    requires Reachable(t)
    ensures var out := PresignReserve(t, x, user, d, base, hash, key, expiresAt);
            && (out.result.Ok? <==> && Edits(t, d, x) && t.sessions[x].user == user
                                    && d in t.docs && t.docs[d].head == Some(base))
            && (out.result.Err? ==>
                  && out.tables == t
                  && out.result.error == if x !in t.sessions then NoRows
                                         else if t.sessions[x].status != Active then SessionInactive
                                         else if t.sessions[x].user != user || t.sessions[x].doc != d then SessionNotHolder
                                         else StaleBase)
  {
    ReachableInv(t);
    if x in t.sessions {
      assert SessionOk(t.docs, t.revisions, x, t.sessions[x]);
      var e := t.sessions[x].doc;
      assert DocumentOk(t.sessions, t.revisions, e, t.docs[e]);
    }
  }

  /** A second request for the same content on the same base finds the row of the first. */
  lemma PresignWrites(t: Tables, x: Id, user: string, d: Id, base: Id, hash: string, key: string, expiresAt: int)
    requires Reachable(t) && PresignReserve(t, x, user, d, base, hash, key, expiresAt).result.Ok?
    ensures var out := PresignReserve(t, x, user, d, base, hash, key, expiresAt);
            var p := out.result.value;
            && ReservedAs(out.tables, p, x, base, hash)
            && (p in t.pendings ==> out.tables == t)
            && (p !in t.pendings ==>
                  && (forall q :: !ReservedAs(t, q, x, base, hash))
                  && OnlyRow(t.pendings, out.tables.pendings, p)
                  && out.tables.pendings[p].doc == d && out.tables.pendings[p].storageKey == key
                  && out.tables.pendings[p].expiresAt == expiresAt && out.tables.pendings[p].consumedAt == None
                  && out.tables.(pendings := t.pendings, nextId := t.nextId) == t)
  {
    ReachableInv(t);
    if q: Id :| ReservedAs(t, q, x, base, hash) {
      assert HasKey(t.pendings, x, base, hash, q);
    }
  }

  /** Exactly the expired uploads that were never consumed go. */
  lemma DeleteExpiredIff(t: Tables, olderThan: int)
    ensures var out := DeleteExpiredPending(t, olderThan);
            && (forall p :: p in out.tables.pendings
                  <==> p in t.pendings && (t.pendings[p].expiresAt >= olderThan || t.pendings[p].consumedAt.Some?))
            && (forall p :: p in out.tables.pendings ==> out.tables.pendings[p] == t.pendings[p])
            && out.tables.(pendings := t.pendings) == t
            && out.result == Ok(|t.pendings.Keys - out.tables.pendings.Keys|)
  {
    var out := DeleteExpiredPending(t, olderThan);
    var dead := set p | p in t.pendings && t.pendings[p].expiresAt < olderThan && t.pendings[p].consumedAt.None?;
    assert t.pendings.Keys - out.tables.pendings.Keys == dead;
  }

  /** The service reserves for drafts of the tenant alone, for 15 minutes. */
  lemma PresignAutosaveIff(t: Tables, tenant: string, user: string, d: Id, x: Id, base: Id, hash: string, key: string, now: int)
    ensures var out := PresignAutosave(t, tenant, user, d, x, base, hash, key, now);
            if d in t.docs && t.docs[d].tenant == tenant && t.docs[d].status == Draft
            then out == PresignReserve(t, x, user, d, base, hash, key, now + 900)
            else out == Outcome(t, Err(if d in t.docs && t.docs[d].tenant == tenant then InvalidStateTransition else NotFound))
  {
  }

  /** The first phase of a commit goes on exactly for a draft of the tenant whose upload is there
      with the hash that was reserved. */
  lemma BeginCommitIff(t: Tables, tenant: string, d: Id, p: Id, objectHash: Option<string>)
    ensures var out := BeginCommit(t, tenant, d, p, objectHash);
            && (out.Ok? <==> && d in t.docs && t.docs[d].tenant == tenant && t.docs[d].status == Draft
                             && p in t.pendings && objectHash == Some(t.pendings[p].hash))
            && (out.Ok? ==> objectHash == Some(out.value))
            && (out.Err? ==>
                  out.error == if d !in t.docs || t.docs[d].tenant != tenant then NotFound
                               else if t.docs[d].status != Draft then InvalidStateTransition
                               else if p !in t.pendings then PendingNotFound
                               else if objectHash == None then UploadMissing
                               else ContentHashMismatch)
  {
  }

  // -------------------------------------------------------------- checkpoints

  lemma CheckpointWrites(t: Tables, d: Id, actor: string, title: string)
    requires Reachable(t)
    ensures var out := CreateCheckpoint(t, d, actor, title);
            && (out.result.Ok? <==> d in t.docs)
            && (out.result.Err? ==> out == Outcome(t, Err(NoRows)))
            && (out.result.Ok? ==>
                  var c := out.result.value;
                  && c !in t.checkpoints && OnlyRow(t.checkpoints, out.tables.checkpoints, c)
                  && out.tables.checkpoints[c].doc == d && t.docs[d].head == Some(out.tables.checkpoints[c].revision)
                  && out.tables.checkpoints[c].version == |CheckpointsOf(t.checkpoints, d)| + 1
                  && out.tables.checkpoints[c].title == title && out.tables.checkpoints[c].createdBy == actor
                  && out.tables.(checkpoints := t.checkpoints, nextId := t.nextId) == t)
  {
    ReachableInv(t);
    if d in t.docs {
      assert DocumentOk(t.sessions, t.revisions, d, t.docs[d]);
      MaxVersionIsCount(t.checkpoints, d);
    }
  }

  ghost predicate IsVersion(t: Tables, c: Id, d: Id, version: int) {
    c in t.checkpoints && t.checkpoints[c].doc == d && t.checkpoints[c].version == version
  }

  /** A restore goes through exactly for the user whose session edits the document and a version
      that is there. */
  lemma RestoreIff(t: Tables, d: Id, actor: string, version: int)
    requires Reachable(t)
    ensures var out := RestoreCheckpoint(t, d, actor, version);
            && (out.result.Ok? <==> && (exists x :: Edits(t, d, x) && t.sessions[x].user == actor)
                                    && exists c :: IsVersion(t, c, d, version))
            && (out.result.Ok? ==>
                  exists c :: IsVersion(t, c, d, version) && t.checkpoints[c].revision == out.result.value.checkpointRevision)
            && (out.result.Err? ==>
                  && out.tables == t
                  && (out.result.error == NoRows <==> d !in t.docs)
                  && (out.result.error == SessionInactive <==> d in t.docs && forall x :: !Edits(t, d, x))
                  && (out.result.error == SessionNotHolder <==> exists x :: Edits(t, d, x) && t.sessions[x].user != actor)
                  && (out.result.error == CheckpointNotFound
                      <==> (exists x :: Edits(t, d, x) && t.sessions[x].user == actor) && forall c :: !IsVersion(t, c, d, version)))
  {
    ReachableInv(t);
    EditorsAre(t, d);
    RestoreCases(t, d, actor, version);
    forall c ensures IsVersion(t, c, d, version)
                     <==> c in t.checkpoints && AtVersion(t.checkpoints, d, version, c) && t.checkpoints[c].revision in t.revisions {
    }
  }

  /** The document's active session is the one that edits it. */
  lemma EditorsAre(t: Tables, d: Id)
    requires Reachable(t)
    ensures forall x :: Edits(t, d, x) ==> d in t.docs
    ensures d in t.docs ==> forall x: Id :: Edits(t, d, x) <==> t.docs[d].activeSession == Some(x)
  {
    ReachableInv(t);
    forall x | Edits(t, d, x) ensures d in t.docs {
      assert SessionOk(t.docs, t.revisions, x, t.sessions[x]);
    }
    if d in t.docs {
      SingleWriter(t, d);
      assert forall x: Id :: Edits(t, d, x) <==> IsActiveSession(t, d, x);
    }
  }
}
