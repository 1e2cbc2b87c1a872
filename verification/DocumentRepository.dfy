/** The documents_v2 repository and service, statement by statement.  Every method is proved
    to be the protocol's transition function and to keep the protocol's invariant. */
module DocumentRepository {
  import opened Prelude
  import opened DocumentProtocol
  import opened DocumentInvariant
  import P = DocumentProtocol

  /** Acquiring where a session is active concerns that one. */
  lemma AcquireActive(t: Tables, tenant: string, d: Id, user: string, now: int, x: Id)
    requires Inv(t) && IsActiveSession(t, d, x)
    ensures P.AcquireSession(t, tenant, d, user, now)
            == if t.sessions[x].user == user then
                 Outcome(t.(sessions := t.sessions[x := t.sessions[x].(expiresAt := now + SESSION_TTL)]),
                         Ok(Acquired(x, t.sessions[x].ack, now + SESSION_TTL)))
               else Outcome(t, Err(SessionTaken(t.sessions[x].user)))
  {
    forall y: Id | IsActiveSession(t, d, y) ensures x == y {
      OneActiveSession(t.docs, t.sessions, t.revisions, x, y);
    }
  }

  lemma AcquireIdle(t: Tables, tenant: string, d: Id, user: string, now: int)
    requires forall x: Id :: !IsActiveSession(t, d, x)
    ensures P.AcquireSession(t, tenant, d, user, now)
            == if d !in t.docs || t.docs[d].tenant != tenant then Outcome(t, Err(NoRows))
               else if t.docs[d].head == None then Outcome(t, Err(NoHead))
               else Outcome(InsertSession(t, d, user, t.docs[d].head.value, now),
                            Ok(Acquired(t.nextId, t.docs[d].head.value, now + SESSION_TTL)))
  {
  }

  class Repository {
    var docs: map<Id, Document>
    var sessions: map<Id, Session>
    var revisions: map<Id, Revision>
    var pendings: map<Id, Pending>
    var checkpoints: map<Id, Checkpoint>
    var nextId: Id
    var nextNum: nat

    ghost function State(): Tables
      reads this
    {
      Tables(docs, sessions, revisions, pendings, checkpoints, nextId, nextNum)
    }

    ghost predicate Valid()
      reads this
    {
      Inv(State())
    }

    constructor ()
      ensures Valid() && State() == EMPTY
    {
      docs, sessions, revisions, pendings, checkpoints := map[], map[], map[], map[], map[];
      nextId, nextNum := ZERO_ID + 1, 1;
      new;
      InvEmpty();
    }

    method CreateDocument(tenant: string, user: string, formData: string, initialHash: string, now: int)
      returns (r: Result<Created, Error>)
      requires Valid()
      modifies this
      ensures Valid()
      ensures Outcome(State(), r) == P.CreateDocument(old(State()), tenant, user, formData, initialHash, now)
    {
      CreateDocumentKeepsInv(State(), tenant, user, formData, initialHash, now);
      r := InsertDocument(tenant, user, formData, initialHash, now);
    }

    /** The inserts and pointer updates of CreateDocument. */
    method InsertDocument(tenant: string, user: string, formData: string, initialHash: string, now: int)
      returns (r: Result<Created, Error>)
      modifies this
      ensures Outcome(State(), r) == P.CreateDocument(old(State()), tenant, user, formData, initialHash, now)
    {
      var docId, sessionId, revId := nextId, nextId + 1, nextId + 2;
      docs := docs[docId := Document(tenant, Draft, formData, user, None, None)];
      sessions := sessions[sessionId := Session(docId, user, now + SESSION_TTL, ZERO_ID, Active)];
      revisions := revisions[revId := Revision(docId, nextNum, None, sessionId, "", initialHash, formData)];
      sessions := sessions[sessionId := sessions[sessionId].(ack := revId)];
      assert sessions == old(sessions)[sessionId := Session(docId, user, now + SESSION_TTL, revId, Active)];
      docs := docs[docId := docs[docId].(head := Some(revId), activeSession := Some(sessionId))];
      assert docs == old(docs)[docId := Document(tenant, Draft, formData, user, Some(revId), Some(sessionId))];
      nextId, nextNum := nextId + 3, nextNum + 1;
      return Ok(Created(docId, revId, sessionId));
    }

    method SetRevisionStorageKey(revId: Id, key: string) returns (r: Result<(), Error>)
      requires Valid()
      modifies this
      ensures Valid()
      ensures Outcome(State(), r) == P.SetRevisionStorageKey(old(State()), revId, key)
    {
      SetKeyKeepsInv(State(), revId, key);
      if revId !in revisions || revisions[revId].storageKey != "" {
        return Err(StorageKeyAlreadySet);
      }
      revisions := revisions[revId := revisions[revId].(storageKey := key)];
      return Ok(());
    }

    method UpdateDocumentStatus(tenant: string, docId: Id, cur: DocumentStatus, next: DocumentStatus)
      returns (r: Result<(), Error>)
      requires Valid()
      modifies this
      ensures Valid()
      ensures Outcome(State(), r) == P.UpdateDocumentStatus(old(State()), tenant, docId, cur, next)
    {
      SetStatusKeepsInv(State(), tenant, docId, cur, next);
      if docId !in docs || docs[docId].tenant != tenant || docs[docId].status != cur {
        return Err(InvalidStateTransition);
      }
      docs := docs[docId := docs[docId].(status := next)];
      return Ok(());
    }

    method AcquireSession(tenant: string, docId: Id, userId: string, now: int) returns (r: Result<Acquired, Error>)
      requires Valid()
      modifies this
      ensures Valid()
      ensures Outcome(State(), r) == P.AcquireSession(old(State()), tenant, docId, userId, now)
    {
      AcquireKeepsInv(State(), tenant, docId, userId, now);
      if x: Id :| x in sessions && sessions[x].doc == docId && sessions[x].status == Active {
        AcquireActive(State(), tenant, docId, userId, now, x);
        if sessions[x].user == userId {
          sessions := sessions[x := sessions[x].(expiresAt := now + SESSION_TTL)];
          return Ok(Acquired(x, sessions[x].ack, now + SESSION_TTL));
        }
        return Err(SessionTaken(sessions[x].user));
      }
      AcquireIdle(State(), tenant, docId, userId, now);
      if docId !in docs || docs[docId].tenant != tenant {
        return Err(NoRows);
      }
      if docs[docId].head == None {
        return Err(NoHead);
      }
      r := OpenSession(docId, userId, docs[docId].head.value, now);
    }

    method OpenSession(docId: Id, userId: string, cur: Id, now: int) returns (r: Result<Acquired, Error>)
      requires docId in docs
      modifies this
      ensures State() == InsertSession(old(State()), docId, userId, cur, now)
      ensures r == Ok(Acquired(old(nextId), cur, now + SESSION_TTL))
    {
      var newId := nextId;
      nextId := nextId + 1;
      sessions := sessions[newId := Session(docId, userId, now + SESSION_TTL, cur, Active)];
      docs := docs[docId := docs[docId].(activeSession := Some(newId))];
      return Ok(Acquired(newId, cur, now + SESSION_TTL));
    }

    method HeartbeatSession(sessionId: Id, userId: string, now: int) returns (r: Result<(), Error>)
      requires Valid()
      modifies this
      ensures Valid()
      ensures Outcome(State(), r) == P.HeartbeatSession(old(State()), sessionId, userId, now)
    {
      HeartbeatKeepsInv(State(), sessionId, userId, now);
      if sessionId !in sessions || sessions[sessionId].user != userId || sessions[sessionId].status != Active {
        return Err(SessionInactive);
      }
      sessions := sessions[sessionId := sessions[sessionId].(expiresAt := now + SESSION_TTL)];
      return Ok(());
    }

    /** UPDATE documents SET active_session_id = NULL WHERE active_session_id IN (closed). */
    method Detach(closed: set<Id>)
      modifies this`docs
      ensures docs == DetachSessions(old(docs), closed)
    {
      docs := map d | d in docs :: if docs[d].activeSession.Some? && docs[d].activeSession.value in closed
                                   then docs[d].(activeSession := None) else docs[d];
    }

    method ReleaseSession(sessionId: Id, userId: string) returns (r: Result<(), Error>)
      requires Valid()
      modifies this
      ensures Valid()
      ensures Outcome(State(), r) == P.ReleaseSession(old(State()), sessionId, userId)
    {
      ReleaseKeepsInv(State(), sessionId, userId);
      if sessionId !in sessions || sessions[sessionId].user != userId || sessions[sessionId].status != Active {
        return Err(SessionInactive);
      }
      sessions := sessions[sessionId := sessions[sessionId].(status := Released)];
      Detach({sessionId});
      return Ok(());
    }

    method ForceReleaseSession(sessionId: Id) returns (r: Result<(), Error>)
      requires Valid()
      modifies this
      ensures Valid()
      ensures Outcome(State(), r) == P.ForceReleaseSession(old(State()), sessionId)
    {
      ForceReleaseKeepsInv(State(), sessionId);
      if sessionId !in sessions || sessions[sessionId].status != Active {
        return Err(SessionInactive);
      }
      sessions := sessions[sessionId := sessions[sessionId].(status := ForceReleased)];
      Detach({sessionId});
      return Ok(());
    }

    method ExpireStaleSessions(now: int) returns (r: Result<nat, Error>)
      requires Valid()
      modifies this
      ensures Valid()
      ensures Outcome(State(), r) == P.ExpireStaleSessions(old(State()), now)
    {
      ExpireKeepsInv(State(), now);
      r := CloseStale(now);
    }

    /** One statement: expire the stale sessions, detach them, count them once per updated document. */
    method CloseStale(now: int) returns (r: Result<nat, Error>)
      modifies this
      ensures Outcome(State(), r) == P.ExpireStaleSessions(old(State()), now)
    {
      var expired := set x | x in sessions && sessions[x].status == Active && sessions[x].expiresAt < now;
      assert expired == StaleSessions(State(), now);
      var touched := set d | d in docs && docs[d].activeSession.Some? && docs[d].activeSession.value in expired;
      assert touched == Holders(docs, expired);
      sessions := map x | x in sessions :: if x in expired then sessions[x].(status := Expired) else sessions[x];
      Detach(expired);
      // RETURNING yields one row per updated document; no row is sql.ErrNoRows.
      if touched == {} {
        return Err(NoRows);
      }
      return Ok(|expired|);
    }

    method PresignReserve(sessionId: Id, userId: string, docId: Id, base: Id, hash: string, storageKey: string,
                          expiresAt: int) returns (r: Result<Id, Error>)
      requires Valid()
      modifies this
      ensures Valid()
      ensures Outcome(State(), r)
              == P.PresignReserve(old(State()), sessionId, userId, docId, base, hash, storageKey, expiresAt)
    {
      PresignKeepsInv(State(), sessionId, userId, docId, base, hash, storageKey, expiresAt);
      if sessionId !in sessions {
        return Err(NoRows);
      }
      var s := sessions[sessionId];
      if s.status != Active {
        return Err(SessionInactive);
      }
      if s.user != userId || s.doc != docId {
        return Err(SessionNotHolder);
      }
      if s.ack != base {
        return Err(StaleBase);
      }
      if p: Id :| p in pendings && pendings[p].session == sessionId && pendings[p].base == base && pendings[p].hash == hash {
        assert HasKey(pendings, sessionId, base, hash, p);
        return Ok(p);
      }
      var pendingId := nextId;
      nextId := nextId + 1;
      pendings := pendings[pendingId := Pending(sessionId, docId, base, hash, storageKey, expiresAt, None)];
      return Ok(pendingId);
    }

    method CommitUpload(sessionId: Id, userId: string, docId: Id, pendingId: Id, serverHash: string,
                        formData: string, now: int) returns (r: Result<CommitResult, Error>)
      requires Valid()
      modifies this
      ensures Valid()
      ensures Outcome(State(), r)
              == P.CommitUpload(old(State()), sessionId, userId, docId, pendingId, serverHash, formData, now)
    {
      CommitKeepsInv(State(), sessionId, userId, docId, pendingId, serverHash, formData, now);
      if pendingId !in pendings {
        return Err(PendingNotFound);
      }
      var p := pendings[pendingId];
      if p.session != sessionId || p.doc != docId {
        return Err(Misbound);
      }
      if p.consumedAt.Some? {
        if rid: Id :| rid in revisions && revisions[rid].doc == docId && revisions[rid].hash == p.hash {
          assert HasHash(revisions, docId, p.hash, rid);
          return Ok(CommitResult(rid, revisions[rid].num, true));
        }
        return Err(NoRows);
      }
      if p.expiresAt < now {
        return Err(ExpiredUpload);
      }
      if sessionId !in sessions {
        return Err(NoRows);
      }
      var s := sessions[sessionId];
      if s.status != Active {
        return Err(SessionInactive);
      }
      if s.user != userId {
        return Err(SessionNotHolder);
      }
      if s.ack != p.base {
        return Err(StaleBase);
      }
      if serverHash != p.hash {
        return Err(ContentHashMismatch);
      }
      if docId !in docs {
        nextNum := nextNum + 1;
        return Err(NoRows);
      }
      r := InsertCommitted(pendingId, formData, now);
    }

    /** The INSERT of a commit and the updates that follow it. */
    method InsertCommitted(pendingId: Id, formData: string, now: int) returns (r: Result<CommitResult, Error>)
      requires UniqueHashes(revisions)
      requires pendingId in pendings && pendings[pendingId].doc in docs && pendings[pendingId].session in sessions
      modifies this
      ensures Outcome(State(), r) == ApplyCommit(old(State()), pendingId, formData, now)
    {
      var p := pendings[pendingId];
      var revNum := nextNum;
      nextNum := nextNum + 1;
      if q: Id :| q in revisions && revisions[q].doc == p.doc && revisions[q].hash == p.hash {
        assert HasHash(revisions, p.doc, p.hash, q);
        return Err(UniqueViolation);
      }
      var revId := nextId;
      nextId := nextId + 1;
      revisions := revisions[revId := Revision(p.doc, revNum, Some(p.base), p.session, p.storageKey, p.hash, formData)];
      docs := docs[p.doc := docs[p.doc].(head := Some(revId), formData := formData)];
      sessions := sessions[p.session := sessions[p.session].(ack := revId)];
      pendings := pendings[pendingId := p.(consumedAt := Some(now))];
      return Ok(CommitResult(revId, revNum, false));
    }

    method DeleteExpiredPending(olderThan: int) returns (r: Result<nat, Error>)
      requires Valid()
      modifies this
      ensures Valid()
      ensures Outcome(State(), r) == P.DeleteExpiredPending(old(State()), olderThan)
    {
      DeleteExpiredKeepsInv(State(), olderThan);
      var dead := set p | p in pendings && pendings[p].expiresAt < olderThan && pendings[p].consumedAt.None?;
      pendings := pendings - dead;
      return Ok(|dead|);
    }

    /** SELECT coalesce(max(version_num), 0). */
    method MaxCheckpointVersion(docId: Id) returns (m: nat)
      ensures m == MaxVersion(checkpoints, docId)
    {
      ghost var max := MaxVersion(checkpoints, docId);
      var versions := set c | c in checkpoints && checkpoints[c].doc == docId :: checkpoints[c].version;
      assert versions == Versions(checkpoints, docId);
      assert versions != {} ==> max in versions;
      if v :| v in versions && forall w | w in versions :: w <= v {
        return v;
      }
      return 0;
    }

    method CreateCheckpoint(docId: Id, actor: string, title: string) returns (r: Result<Id, Error>)
      requires Valid()
      modifies this
      ensures Valid()
      ensures Outcome(State(), r) == P.CreateCheckpoint(old(State()), docId, actor, title)
    {
      CheckpointKeepsInv(State(), docId, actor, title);
      r := InsertCheckpoint(docId, actor, title);
    }

    /** SELECT the next version, INSERT. */
    method InsertCheckpoint(docId: Id, actor: string, title: string) returns (r: Result<Id, Error>)
      modifies this
      ensures Outcome(State(), r) == P.CreateCheckpoint(old(State()), docId, actor, title)
    {
      if docId !in docs || docs[docId].head == None {
        return Err(NoRows);
      }
      var maxVersion := MaxCheckpointVersion(docId);
      var cpId := nextId;
      nextId := nextId + 1;
      checkpoints := checkpoints[cpId := Checkpoint(docId, docs[docId].head.value, maxVersion + 1, title, actor)];
      return Ok(cpId);
    }

    method RestoreCheckpoint(docId: Id, actor: string, version: int) returns (r: Result<RestoreResult, Error>)
      requires Valid()
      modifies this
      ensures Valid()
      ensures Outcome(State(), r) == P.RestoreCheckpoint(old(State()), docId, actor, version)
    {
      RestoreKeepsInv(State(), docId, actor, version);
      if docId !in docs {
        return Err(NoRows);
      }
      if docs[docId].activeSession == None {
        return Err(SessionInactive);
      }
      var sessId := docs[docId].activeSession.value;
      if sessId !in sessions {
        return Err(NoRows);
      }
      if sessions[sessId].status != Active {
        return Err(SessionInactive);
      }
      if sessions[sessId].user != actor {
        return Err(SessionNotHolder);
      }
      if c: Id :| c in checkpoints && checkpoints[c].doc == docId && checkpoints[c].version == version
                  && checkpoints[c].revision in revisions
      {
        assert AtVersion(checkpoints, docId, version, c);
        r := InsertRestored(docId, sessId, checkpoints[c].revision);
      } else {
        return Err(CheckpointNotFound);
      }
    }

    method InsertRestored(docId: Id, sessId: Id, source: Id) returns (r: Result<RestoreResult, Error>)
      requires UniqueHashes(revisions) && docId in docs && sessId in sessions && source in revisions
      modifies this
      ensures Outcome(State(), r) == ApplyRestore(old(State()), docId, sessId, source)
    {
      var from := revisions[source];
      var revNum := nextNum;
      nextNum := nextNum + 1;
      if q: Id :| q in revisions && revisions[q].doc == docId && revisions[q].hash == from.hash {
        assert HasHash(revisions, docId, from.hash, q);
        return Ok(RestoreResult(q, revisions[q].num, source, true));
      }
      var revId := nextId;
      nextId := nextId + 1;
      revisions := revisions[revId := Revision(docId, revNum, docs[docId].head, sessId,
                                               from.storageKey, from.hash, from.formData)];
      docs := docs[docId := docs[docId].(head := Some(revId), formData := from.formData)];
      sessions := sessions[sessId := sessions[sessId].(ack := revId)];
      return Ok(RestoreResult(revId, revNum, source, false));
    }
  }

  // ------------------------------------------------------------ the service

  class Service {
    const repo: Repository

    constructor (repo: Repository)
      ensures this.repo == repo
    {
      this.repo := repo;
    }

    method PresignAutosave(tenant: string, user: string, docId: Id, sessionId: Id, base: Id, hash: string,
                           storageKey: string, now: int) returns (r: Result<Id, Error>)
      requires repo.Valid()
      modifies repo
      ensures repo.Valid()
      ensures Outcome(repo.State(), r)
              == P.PresignAutosave(old(repo.State()), tenant, user, docId, sessionId, base, hash, storageKey, now)
    {
      if docId !in repo.docs || repo.docs[docId].tenant != tenant {
        return Err(NotFound);
      }
      if repo.docs[docId].status != Draft {
        return Err(InvalidStateTransition);
      }
      r := repo.PresignReserve(sessionId, user, docId, base, hash, storageKey, now + UPLOAD_TTL);
    }

    /** CommitAutosave up to its last database call.  `objectHash` is the hash of the stored
        object, None when there is none. */
    method BeginCommitAutosave(tenant: string, docId: Id, pendingId: Id, objectHash: Option<string>)
      returns (r: Result<string, Error>)
      ensures r == BeginCommit(repo.State(), tenant, docId, pendingId, objectHash)
    {
      if docId !in repo.docs || repo.docs[docId].tenant != tenant {
        return Err(NotFound);
      }
      if repo.docs[docId].status != Draft {
        return Err(InvalidStateTransition);
      }
      if pendingId !in repo.pendings {
        return Err(PendingNotFound);
      }
      if objectHash == None {
        return Err(UploadMissing);
      }
      if objectHash.value != repo.pendings[pendingId].hash {
        return Err(ContentHashMismatch);
      }
      return Ok(objectHash.value);
    }

    /** CommitAutosave when no other transaction falls between its two phases. */
    method CommitAutosave(tenant: string, user: string, docId: Id, sessionId: Id, pendingId: Id, formData: string,
                          objectHash: Option<string>, now: int) returns (r: Result<CommitResult, Error>)
      requires repo.Valid()
      modifies repo
      ensures repo.Valid()
      ensures var begun := BeginCommit(old(repo.State()), tenant, docId, pendingId, objectHash);
              Outcome(repo.State(), r)
              == match begun
                 case Err(e) => Outcome(old(repo.State()), Err(e))
                 case Ok(h) => P.CommitUpload(old(repo.State()), sessionId, user, docId, pendingId, h, formData, now)
    {
      var begun := BeginCommitAutosave(tenant, docId, pendingId, objectHash);
      match begun
      case Err(e) =>
        return Err(e);
      case Ok(serverHash) =>
        r := repo.CommitUpload(sessionId, user, docId, pendingId, serverHash, formData, now);
    }
  }
}
