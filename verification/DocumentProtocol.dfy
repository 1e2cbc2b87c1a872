/** The editor session / autosave / revision / checkpoint protocol of documents_v2, as
    transition functions on the tables.  Each transaction of the repository is one atomic
    step; `DocumentRepository` runs the same transactions statement by statement and
    proves that they are these functions. */
module DocumentProtocol {
  import opened Prelude

  // gen_random_uuid() never returns a value twice: ids are drawn from a counter.
  type Id = nat

  const ZERO_ID: Id := 0

  // now() + interval '5 minutes', in seconds.
  const SESSION_TTL: int := 300

  datatype DocumentStatus = Draft | Finalized | Archived

  datatype SessionStatus = Active | Expired | Released | ForceReleased

  datatype Document = Document(tenant: string, status: DocumentStatus, formData: string, createdBy: string,
                               head: Option<Id>, activeSession: Option<Id>)

  datatype Session = Session(doc: Id, user: string, expiresAt: int, ack: Id, status: SessionStatus)

  datatype Revision = Revision(doc: Id, num: nat, parent: Option<Id>, session: Id,
                               storageKey: string, hash: string, formData: string)

  datatype Pending = Pending(session: Id, doc: Id, base: Id, hash: string,
                             storageKey: string, expiresAt: int, consumedAt: Option<int>)

  datatype Checkpoint = Checkpoint(doc: Id, revision: Id, version: nat, title: string, createdBy: string)

  /** The tables, the id source and the sequence behind `revision_num BIGSERIAL`. */
  datatype Tables = Tables(docs: map<Id, Document>, sessions: map<Id, Session>, revisions: map<Id, Revision>,
                           pendings: map<Id, Pending>, checkpoints: map<Id, Checkpoint>,
                           nextId: Id, nextNum: nat)

  datatype Error =
    | NoRows
    | NoHead
    | UniqueViolation
    | InvalidStateTransition
    | SessionInactive
    | SessionNotHolder
    | SessionTaken(holder: string)
    | StaleBase
    | Misbound
    | ExpiredUpload
    | ContentHashMismatch
    | PendingNotFound
    | CheckpointNotFound
    | StorageKeyAlreadySet
    | NotFound
    | UploadMissing

  datatype Created = Created(doc: Id, revision: Id, session: Id)

  datatype Acquired = Acquired(session: Id, ack: Id, expiresAt: int)

  datatype CommitResult = CommitResult(revision: Id, num: nat, alreadyConsumed: bool)

  datatype RestoreResult = RestoreResult(revision: Id, num: nat, checkpointRevision: Id, idempotent: bool)

  datatype Outcome<+T> = Outcome(tables: Tables, result: Result<T, Error>)

  const EMPTY: Tables := Tables(map[], map[], map[], map[], map[], ZERO_ID + 1, 1)

  // ---------------------------------------------------------------- lookups

  ghost predicate IsActiveSession(t: Tables, d: Id, x: Id) {
    x in t.sessions && t.sessions[x].doc == d && t.sessions[x].status == Active
  }

  ghost predicate HasHash(revs: map<Id, Revision>, d: Id, hash: string, r: Id) {
    r in revs && revs[r].doc == d && revs[r].hash == hash
  }

  ghost predicate HasKey(pends: map<Id, Pending>, x: Id, base: Id, hash: string, p: Id) {
    p in pends && pends[p].session == x && pends[p].base == base && pends[p].hash == hash
  }

  ghost predicate AtVersion(cps: map<Id, Checkpoint>, d: Id, version: int, c: Id) {
    c in cps && cps[c].doc == d && cps[c].version == version
  }

  ghost predicate IsStale(s: Session, now: int) {
    s.status == Active && s.expiresAt < now
  }

  ghost function Versions(cps: map<Id, Checkpoint>, d: Id): set<nat> {
    set c | c in cps && cps[c].doc == d :: cps[c].version
  }

  ghost predicate IsMax(s: set<nat>, m: nat) {
    (m == 0 || m in s) && forall v :: v in s ==> v <= m
  }

  lemma MaxExists(s: set<nat>) returns (m: nat)
    ensures IsMax(s, m)
    decreases s
  {
    if s == {} {
      m := 0;
    } else {
      var x :| x in s;
      var rest := MaxExists(s - {x});
      assert forall v :: v in s ==> v == x || v in s - {x};
      m := if rest < x then x else rest;
    }
  }

  /** coalesce(max(version_num), 0) over the checkpoints of a document. */
  ghost function MaxVersion(cps: map<Id, Checkpoint>, d: Id): (m: nat)
    ensures IsMax(Versions(cps, d), m)
  {
    assert exists m: nat :: IsMax(Versions(cps, d), m) by {
      var m := MaxExists(Versions(cps, d));
    }
    var m: nat :| IsMax(Versions(cps, d), m); m
  }

  // ----------------------------------------------------------- transactions

  ghost function CreateDocument(t: Tables, tenant: string, user: string, formData: string, hash: string, now: int)
    : Outcome<Created>
  {
    var d, x, r := t.nextId, t.nextId + 1, t.nextId + 2;
    Outcome(
      t.(docs := t.docs[d := Document(tenant, Draft, formData, user, Some(r), Some(x))],
         sessions := t.sessions[x := Session(d, user, now + SESSION_TTL, r, Active)],
         revisions := t.revisions[r := Revision(d, t.nextNum, None, x, "", hash, formData)],
         nextId := t.nextId + 3,
         nextNum := t.nextNum + 1),
      Ok(Created(d, r, x)))
  }

  ghost function SetRevisionStorageKey(t: Tables, r: Id, key: string): Outcome<()> {
    if r in t.revisions && t.revisions[r].storageKey == "" then
      Outcome(t.(revisions := t.revisions[r := t.revisions[r].(storageKey := key)]), Ok(()))
    else
      Outcome(t, Err(StorageKeyAlreadySet))
  }

  ghost function UpdateDocumentStatus(t: Tables, tenant: string, d: Id, cur: DocumentStatus, next: DocumentStatus)
    : Outcome<()>
  {
    if d in t.docs && t.docs[d].tenant == tenant && t.docs[d].status == cur then
      Outcome(t.(docs := t.docs[d := t.docs[d].(status := next)]), Ok(()))
    else
      Outcome(t, Err(InvalidStateTransition))
  }

  /** The inserting half of AcquireSession: the head was read earlier in the transaction. */
  ghost function InsertSession(t: Tables, d: Id, user: string, head: Id, now: int): Tables
    requires d in t.docs
  {
    t.(sessions := t.sessions[t.nextId := Session(d, user, now + SESSION_TTL, head, Active)],
       docs := t.docs[d := t.docs[d].(activeSession := Some(t.nextId))],
       nextId := t.nextId + 1)
  }

  ghost function AcquireSession(t: Tables, tenant: string, d: Id, user: string, now: int): Outcome<Acquired> {
    if exists x: Id :: IsActiveSession(t, d, x) then
      var x: Id :| IsActiveSession(t, d, x);
      var s := t.sessions[x];
      if s.user == user then
        Outcome(t.(sessions := t.sessions[x := s.(expiresAt := now + SESSION_TTL)]),
                Ok(Acquired(x, s.ack, now + SESSION_TTL)))
      else
        Outcome(t, Err(SessionTaken(s.user)))
    else if d !in t.docs || t.docs[d].tenant != tenant then
      Outcome(t, Err(NoRows))
    else if t.docs[d].head == None then
      Outcome(t, Err(NoHead))
    else
      Outcome(InsertSession(t, d, user, t.docs[d].head.value, now),
              Ok(Acquired(t.nextId, t.docs[d].head.value, now + SESSION_TTL)))
  }

  ghost function HeartbeatSession(t: Tables, x: Id, user: string, now: int): Outcome<()> {
    if x in t.sessions && t.sessions[x].user == user && t.sessions[x].status == Active then
      Outcome(t.(sessions := t.sessions[x := t.sessions[x].(expiresAt := now + SESSION_TTL)]), Ok(()))
    else
      Outcome(t, Err(SessionInactive))
  }

  /** UPDATE documents SET active_session_id = NULL WHERE active_session_id IN closed. */
  ghost function DetachSessions(docs: map<Id, Document>, closed: set<Id>): map<Id, Document> {
    map d | d in docs :: if docs[d].activeSession.Some? && docs[d].activeSession.value in closed
                         then docs[d].(activeSession := None) else docs[d]
  }

  ghost function CloseSession(t: Tables, x: Id, status: SessionStatus): Tables
    requires x in t.sessions
  {
    t.(sessions := t.sessions[x := t.sessions[x].(status := status)], docs := DetachSessions(t.docs, {x}))
  }

  ghost function ReleaseSession(t: Tables, x: Id, user: string): Outcome<()> {
    if x in t.sessions && t.sessions[x].user == user && t.sessions[x].status == Active then
      Outcome(CloseSession(t, x, Released), Ok(()))
    else
      Outcome(t, Err(SessionInactive))
  }

  ghost function ForceReleaseSession(t: Tables, x: Id): Outcome<()> {
    if x in t.sessions && t.sessions[x].status == Active then
      Outcome(CloseSession(t, x, ForceReleased), Ok(()))
    else
      Outcome(t, Err(SessionInactive))
  }

  ghost function StaleSessions(t: Tables, now: int): set<Id> {
    set x | x in t.sessions && IsStale(t.sessions[x], now)
  }

  ghost function Holders(docs: map<Id, Document>, closed: set<Id>): set<Id> {
    set d | d in docs && docs[d].activeSession.Some? && docs[d].activeSession.value in closed
  }

  /** The count comes back once per updated document row: no updated row, no row to scan. */
  ghost function ExpireStaleSessions(t: Tables, now: int): Outcome<nat> {
    var stale := StaleSessions(t, now);
    Outcome(
      t.(sessions := map x | x in t.sessions :: if x in stale then t.sessions[x].(status := Expired) else t.sessions[x],
         docs := DetachSessions(t.docs, stale)),
      if Holders(t.docs, stale) == {} then Err(NoRows) else Ok(|stale|))
  }

  ghost function PresignReserve(t: Tables, x: Id, user: string, d: Id, base: Id, hash: string,
                                storageKey: string, expiresAt: int): Outcome<Id>
  {
    if x !in t.sessions then Outcome(t, Err(NoRows))
    else if t.sessions[x].status != Active then Outcome(t, Err(SessionInactive))
    else if t.sessions[x].user != user || t.sessions[x].doc != d then Outcome(t, Err(SessionNotHolder))
    else if t.sessions[x].ack != base then Outcome(t, Err(StaleBase))
    else if exists p: Id :: HasKey(t.pendings, x, base, hash, p) then
      var p: Id :| HasKey(t.pendings, x, base, hash, p);
      Outcome(t, Ok(p))
    else
      Outcome(t.(pendings := t.pendings[t.nextId := Pending(x, d, base, hash, storageKey, expiresAt, None)],
                 nextId := t.nextId + 1),
              Ok(t.nextId))
  }

  /** The checks CommitUpload makes after the replay branch, in order; None lets it go on. */
  ghost function CommitRefusal(t: Tables, row: Pending, x: Id, user: string, serverHash: string, now: int)
    : Option<Error>
  {
    if row.expiresAt < now then Some(ExpiredUpload)
    else if x !in t.sessions then Some(NoRows)
    else if t.sessions[x].status != Active then Some(SessionInactive)
    else if t.sessions[x].user != user then Some(SessionNotHolder)
    else if t.sessions[x].ack != row.base then Some(StaleBase)
    else if serverHash != row.hash then Some(ContentHashMismatch)
    else None
  }

  /** The writes of an accepted commit.  A rejected INSERT still burns a sequence value. */
  ghost function ApplyCommit(t: Tables, p: Id, formData: string, now: int): Outcome<CommitResult>
    requires p in t.pendings && t.pendings[p].doc in t.docs && t.pendings[p].session in t.sessions
  {
    var row := t.pendings[p];
    var r := t.nextId;
    if exists q: Id :: HasHash(t.revisions, row.doc, row.hash, q) then
      Outcome(t.(nextNum := t.nextNum + 1), Err(UniqueViolation))
    else
      Outcome(
        t.(revisions := t.revisions[r := Revision(row.doc, t.nextNum, Some(row.base), row.session,
                                                  row.storageKey, row.hash, formData)],
           docs := t.docs[row.doc := t.docs[row.doc].(head := Some(r), formData := formData)],
           sessions := t.sessions[row.session := t.sessions[row.session].(ack := r)],
           pendings := t.pendings[p := row.(consumedAt := Some(now))],
           nextId := t.nextId + 1,
           nextNum := t.nextNum + 1),
        Ok(CommitResult(r, t.nextNum, false)))
  }

  ghost function CommitUpload(t: Tables, x: Id, user: string, d: Id, p: Id, serverHash: string,
                              formData: string, now: int): Outcome<CommitResult>
  {
    if p !in t.pendings then Outcome(t, Err(PendingNotFound))
    else
      var row := t.pendings[p];
      if row.session != x || row.doc != d then Outcome(t, Err(Misbound))
      else if row.consumedAt.Some? then
        if exists r: Id :: HasHash(t.revisions, d, row.hash, r) then
          var r: Id :| HasHash(t.revisions, d, row.hash, r);
          Outcome(t, Ok(CommitResult(r, t.revisions[r].num, true)))
        else Outcome(t, Err(NoRows))
      else
        match CommitRefusal(t, row, x, user, serverHash, now)
        case Some(e) => Outcome(t, Err(e))
        case None =>
          // A missing document row would break the revision's foreign key.
          if d !in t.docs then Outcome(t.(nextNum := t.nextNum + 1), Err(NoRows))
          else ApplyCommit(t, p, formData, now)
  }

  ghost function DeleteExpiredPending(t: Tables, olderThan: int): Outcome<nat> {
    var dead := set p | p in t.pendings && t.pendings[p].expiresAt < olderThan && t.pendings[p].consumedAt.None?;
    Outcome(t.(pendings := t.pendings - dead), Ok(|dead|))
  }

  ghost function CreateCheckpoint(t: Tables, d: Id, actor: string, title: string): Outcome<Id> {
    if d !in t.docs || t.docs[d].head == None then Outcome(t, Err(NoRows))
    else
      Outcome(t.(checkpoints := t.checkpoints[t.nextId :=
                   Checkpoint(d, t.docs[d].head.value, MaxVersion(t.checkpoints, d) + 1, title, actor)],
                 nextId := t.nextId + 1),
              Ok(t.nextId))
  }

  /** INSERT ... ON CONFLICT (document_id, content_hash) DO UPDATE SET id = id, and on a
      fresh insert the head and the session's acknowledgement follow. */
  ghost function ApplyRestore(t: Tables, d: Id, x: Id, source: Id): Outcome<RestoreResult>
    requires d in t.docs && x in t.sessions && source in t.revisions
  {
    var from := t.revisions[source];
    if exists q: Id :: HasHash(t.revisions, d, from.hash, q) then
      var q: Id :| HasHash(t.revisions, d, from.hash, q);
      Outcome(t.(nextNum := t.nextNum + 1), Ok(RestoreResult(q, t.revisions[q].num, source, true)))
    else
      var r := t.nextId;
      Outcome(
        t.(revisions := t.revisions[r := Revision(d, t.nextNum, t.docs[d].head, x,
                                                  from.storageKey, from.hash, from.formData)],
           docs := t.docs[d := t.docs[d].(head := Some(r), formData := from.formData)],
           sessions := t.sessions[x := t.sessions[x].(ack := r)],
           nextId := t.nextId + 1,
           nextNum := t.nextNum + 1),
        Ok(RestoreResult(r, t.nextNum, source, false)))
  }

  ghost function RestoreCheckpoint(t: Tables, d: Id, actor: string, version: int): Outcome<RestoreResult> {
    if d !in t.docs then Outcome(t, Err(NoRows))
    else if t.docs[d].activeSession == None then Outcome(t, Err(SessionInactive))
    else
      var x := t.docs[d].activeSession.value;
      if x !in t.sessions then Outcome(t, Err(NoRows))
      else if t.sessions[x].status != Active then Outcome(t, Err(SessionInactive))
      else if t.sessions[x].user != actor then Outcome(t, Err(SessionNotHolder))
      else if exists c: Id :: AtVersion(t.checkpoints, d, version, c) && t.checkpoints[c].revision in t.revisions then
        var c: Id :| AtVersion(t.checkpoints, d, version, c) && t.checkpoints[c].revision in t.revisions;
        ApplyRestore(t, d, x, t.checkpoints[c].revision)
      else Outcome(t, Err(CheckpointNotFound))
  }

  // ------------------------------------------------------------ the service

  // An upload may be committed for 15 minutes, in seconds.
  const UPLOAD_TTL: int := 900

  ghost predicate IsDraftOf(t: Tables, tenant: string, d: Id) {
    d in t.docs && t.docs[d].tenant == tenant && t.docs[d].status == Draft
  }

  ghost function DraftError(t: Tables, tenant: string, d: Id): Error {
    if d !in t.docs || t.docs[d].tenant != tenant then NotFound else InvalidStateTransition
  }

  ghost function PresignAutosave(t: Tables, tenant: string, user: string, d: Id, x: Id, base: Id, hash: string,
                                 storageKey: string, now: int): Outcome<Id>
  {
    if IsDraftOf(t, tenant, d) then PresignReserve(t, x, user, d, base, hash, storageKey, now + UPLOAD_TTL)
    else Outcome(t, Err(DraftError(t, tenant, d)))
  }

  /** CommitAutosave up to its last database call: it reads the document and the upload row
      and compares the row's hash with that of the stored object.  CommitUpload follows, and
      other transactions may run in between. */
  ghost function BeginCommit(t: Tables, tenant: string, d: Id, p: Id, objectHash: Option<string>): Result<string, Error> {
    if !IsDraftOf(t, tenant, d) then Err(DraftError(t, tenant, d))
    else if p !in t.pendings then Err(PendingNotFound)
    else if objectHash == None then Err(UploadMissing)
    else if objectHash.value != t.pendings[p].hash then Err(ContentHashMismatch)
    else Ok(objectHash.value)
  }

  // ------------------------------------------------------------------- runs

  datatype Step =
    | DoCreate(tenant: string, user: string, formData: string, hash: string, now: int)
    | DoSetKey(revision: Id, key: string)
    | DoSetStatus(tenant: string, doc: Id, cur: DocumentStatus, next: DocumentStatus)
    | DoAcquire(tenant: string, doc: Id, user: string, now: int)
    | DoHeartbeat(session: Id, user: string, now: int)
    | DoRelease(session: Id, user: string)
    | DoForceRelease(session: Id)
    | DoExpire(now: int)
    | DoPresign(session: Id, user: string, doc: Id, base: Id, hash: string, key: string, expiresAt: int)
    | DoCommit(session: Id, user: string, doc: Id, pending: Id, serverHash: string, formData: string, now: int)
    | DoDeleteExpired(olderThan: int)
    | DoCheckpoint(doc: Id, actor: string, title: string)
    | DoRestore(doc: Id, actor: string, version: int)

  ghost function Apply(t: Tables, step: Step): Tables {
    match step
    case DoCreate(tenant, user, formData, hash, now) => CreateDocument(t, tenant, user, formData, hash, now).tables
    case DoSetKey(r, key) => SetRevisionStorageKey(t, r, key).tables
    case DoSetStatus(tenant, d, cur, next) => UpdateDocumentStatus(t, tenant, d, cur, next).tables
    case DoAcquire(tenant, d, user, now) => AcquireSession(t, tenant, d, user, now).tables
    case DoHeartbeat(x, user, now) => HeartbeatSession(t, x, user, now).tables
    case DoRelease(x, user) => ReleaseSession(t, x, user).tables
    case DoForceRelease(x) => ForceReleaseSession(t, x).tables
    case DoExpire(now) => ExpireStaleSessions(t, now).tables
    case DoPresign(x, user, d, base, hash, key, expiresAt) =>
      PresignReserve(t, x, user, d, base, hash, key, expiresAt).tables
    case DoCommit(x, user, d, p, serverHash, formData, now) =>
      CommitUpload(t, x, user, d, p, serverHash, formData, now).tables
    case DoDeleteExpired(olderThan) => DeleteExpiredPending(t, olderThan).tables
    case DoCheckpoint(d, actor, title) => CreateCheckpoint(t, d, actor, title).tables
    case DoRestore(d, actor, version) => RestoreCheckpoint(t, d, actor, version).tables
  }

  ghost function Run(t: Tables, steps: seq<Step>): Tables
    decreases |steps|
  {
    if steps == [] then t else Run(Apply(t, steps[0]), steps[1..])
  }
}
