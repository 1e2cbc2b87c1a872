/** Templates, their versions and approval configs as stored rows; the repository writes; and
    what each service operation reads, checks and then writes, in order. Nothing here runs in a
    transaction: any write can fail, leaving the ones before it done. */
module TemplateStore {
  import opened Prelude
  import opened VisibilityGraph
  import opened PlaceholderSchema

  type Key = string

  // A version's row id, fixed like the UNIQUE (template_id, version_number) it stands for.
  datatype VersionId = VersionId(template: Key, number: int)

  datatype Status = Draft | InReview | Approved | Published | Obsolete

  datatype Content = Content(metadata: string, schema: seq<Placeholder>, hash: string)

  datatype Version = Version(
    status: Status, content: Content, author: string,
    pendingReviewerRole: Option<string>, pendingApproverRole: string,
    reviewer: Option<string>, approver: Option<string>,
    submittedAt: Option<int>, reviewedAt: Option<int>, approvedAt: Option<int>,
    publishedAt: Option<int>, obsoletedAt: Option<int>)

  datatype Visibility = Public | Internal | Specific | Unknown(text: string)

  /** The columns nothing depends on. */
  datatype Profile = Profile(docTypeCode: string, name: string, description: string, areas: seq<string>,
                             visibility: Visibility, specificAreas: seq<string>)

  datatype Template = Template(
    tenant: string, key: string, profile: Profile, latestVersion: int, publishedVersion: Option<VersionId>,
    createdBy: string, archivedAt: Option<int>)

  datatype Config = Config(reviewerRole: Option<string>, approverRole: string)

  /** `submitted` is no column: it remembers the content each version had when it was last
      submitted for review. */
  datatype DB = DB(
    templates: map<Key, Template>, versions: map<VersionId, Version>,
    configs: map<Key, Config>, submitted: map<VersionId, Content>)

  datatype Error =
    | NotFound | KeyConflict | ArchivedTemplate | InvalidStateTransition | StaleBase | InvalidSchema
    | UnknownResolver | OptionsMisplaced | InvalidVisibility
    | ForbiddenRole | SegregationViolation | InvalidApprovalConfig | UploadMissing | ContentHashMismatch

  // ------------------------------------------------------------- domain rules

  predicate CanTransition(from: Status, next: Status, hasReviewer: bool) {
    match from
    case Draft => next == InReview
    case InReview => next == Draft || (next == Approved && hasReviewer) || (next == Published && !hasReviewer)
    case Approved => next == Published || next == Draft
    case Published => next == Obsolete
    case Obsolete => false
  }

  predicate ReviewerSegregated(actor: string, author: string) {
    actor != author
  }

  predicate ApproverSegregated(actor: string, author: string, reviewer: Option<string>) {
    actor != author && reviewer != Some(actor)
  }

  /** A visibility of the known ones, with areas where it is specific. */
  predicate ProfileOk(p: Profile) {
    !p.visibility.Unknown? && (p.visibility == Specific ==> p.specificAreas != [])
  }

  /** Areas given without need are dropped. */
  function StoredProfile(p: Profile): Profile {
    if p.visibility != Specific then p.(specificAreas := []) else p
  }

  // ------------------------------------------------------- repository writes

  datatype Write =
    | InsertTemplate(id: Key, t: Template)
    | UpdateTemplate(id: Key, t: Template)
    | InsertVersion(vid: VersionId, v: Version)
    | UpdateVersion(vid: VersionId, v: Version)
    | ObsoletePreviousPublished(id: Key, keep: VersionId, now: int)
    | UpsertConfig(id: Key, c: Config)
    | AppendAudit

  ghost predicate Accepts(db: DB, w: Write) {
    match w
    case InsertTemplate(id, t) =>
      id !in db.templates && forall i :: i in db.templates ==> (db.templates[i].tenant, db.templates[i].key) != (t.tenant, t.key)
    case UpdateTemplate(id, t) =>
      && id in db.templates && db.templates[id].tenant == t.tenant
      && (t.publishedVersion.Some? ==> t.publishedVersion.value in db.versions)
    case InsertVersion(vid, v) => vid !in db.versions && vid.template in db.templates
    case UpdateVersion(vid, v) => vid in db.versions
    case ObsoletePreviousPublished(id, keep, now) => true
    case UpsertConfig(id, c) => id in db.templates
    case AppendAudit => true
  }

  /** UPDATE leaves author_id and created_by alone. */
  function Stored(row: Version, v: Version): Version {
    v.(author := row.author)
  }

  predicate Superseded(vid: VersionId, v: Version, id: Key, keep: VersionId) {
    vid.template == id && v.status == Published && vid != keep
  }

  function Obsoleted(v: Version, now: int): Version {
    v.(status := Obsolete, obsoletedAt := Some(now))
  }

  ghost function Apply(db: DB, w: Write): DB
    requires Accepts(db, w)
  {
    match w
    case InsertTemplate(id, t) => db.(templates := db.templates[id := t])
    case UpdateTemplate(id, t) =>
      db.(templates := db.templates[id := t.(createdBy := db.templates[id].createdBy)])
    case InsertVersion(vid, v) => db.(versions := db.versions[vid := v])
    case UpdateVersion(vid, v) =>
      db.(versions := db.versions[vid := Stored(db.versions[vid], v)],
          submitted := if db.versions[vid].status == Draft && v.status == InReview
                       then db.submitted[vid := v.content] else db.submitted)
    case ObsoletePreviousPublished(id, keep, now) =>
      db.(versions := map vid | vid in db.versions ::
            if Superseded(vid, db.versions[vid], id, keep) then Obsoleted(db.versions[vid], now) else db.versions[vid])
    case UpsertConfig(id, c) => db.(configs := db.configs[id := c])
    case AppendAudit => db
  }

  // -------------------------------------------------------------- operations

  datatype Op =
    | CreateTemplate(id: Key, tenant: string, key: string, profile: Profile, actor: string, config: Config)
    | CreateNextVersion(tenant: string, id: Key, actor: string)
    | UpdateSchemas(vid: VersionId, metadata: string, schema: seq<Placeholder>, known: Option<set<string>>, expectedHash: string)
    | CommitAutosave(tenant: string, vid: VersionId, storedHash: Option<string>, expectedHash: string)
    | SubmitForReview(tenant: string, vid: VersionId, now: int)
    | Review(tenant: string, vid: VersionId, actor: string, roles: seq<string>, accept: bool, now: int)
    | Approve(tenant: string, vid: VersionId, actor: string, roles: seq<string>, accept: bool, now: int)
    | ArchiveTemplate(tenant: string, id: Key, now: int)
    | ConfigureApproval(tenant: string, id: Key, actor: string, roles: seq<string>, config: Config)

  datatype Writes = Nil | Cons(first: Write, rest: Writes)

  datatype Plan = Refuse(error: Error) | Perform(writes: Writes)

  predicate HasTemplate(db: DB, tenant: string, id: Key) {
    id in db.templates && db.templates[id].tenant == tenant
  }

  predicate KeyTaken(db: DB, tenant: string, key: string) {
    exists i :: i in db.templates && db.templates[i].tenant == tenant && db.templates[i].key == key
  }

  /** The version a new one is cloned from: the published one, else the latest. */
  function SourceOf(id: Key, t: Template): VersionId {
    if t.publishedVersion.Some? then t.publishedVersion.value else VersionId(id, t.latestVersion)
  }

  function FreshVersion(content: Content, author: string, config: Config): Version {
    Version(Draft, content, author, config.reviewerRole, config.approverRole, None, None, None, None, None, None, None)
  }

  function Submitted(v: Version, config: Config, now: int): Version {
    v.(pendingReviewerRole := config.reviewerRole, pendingApproverRole := config.approverRole,
       status := InReview, submittedAt := Some(now))
  }

  function Reviewed(v: Version, actor: string, accept: bool, now: int): Version {
    if accept then v.(status := Approved, reviewer := Some(actor), reviewedAt := Some(now))
    else v.(status := Draft, submittedAt := None)
  }

  function Signed(v: Version, actor: string, now: int): Version {
    v.(status := Published, approver := Some(actor), approvedAt := Some(now), publishedAt := Some(now))
  }

  function SentBack(v: Version): Version {
    v.(status := Draft, submittedAt := None, reviewedAt := None, approvedAt := None)
  }

  function Save(vid: VersionId, v: Version): Writes {
    Cons(UpdateVersion(vid, v), Cons(AppendAudit, Nil))
  }

  ghost function PlanOf(db: DB, op: Op): Plan {
    match op
    case CreateTemplate(id, tenant, key, profile, actor, config) =>
      if !ProfileOk(profile) then Refuse(InvalidVisibility)
      else if KeyTaken(db, tenant, key) then Refuse(KeyConflict)
      else Perform(Cons(InsertTemplate(id, Template(tenant, key, StoredProfile(profile), 1, None, actor, None)),
                   Cons(InsertVersion(VersionId(id, 1), FreshVersion(Content("", [], ""), actor, config)),
                   Cons(UpsertConfig(id, config), Cons(AppendAudit, Nil)))))
    case CreateNextVersion(tenant, id, actor) =>
      if !HasTemplate(db, tenant, id) then Refuse(NotFound)
      else
        var t := db.templates[id];
        var source, next := SourceOf(id, t), t.latestVersion + 1;
        if t.archivedAt.Some? then Refuse(ArchivedTemplate)
        else if source !in db.versions then Refuse(NotFound)
        else
          var content := db.versions[source].content.(hash := "");
          Perform(Cons(InsertVersion(VersionId(id, next), FreshVersion(content, actor, Config(None, ""))),
                  Cons(UpdateTemplate(id, t.(latestVersion := next)), Cons(AppendAudit, Nil))))
    case UpdateSchemas(vid, metadata, schema, known, expectedHash) =>
      if vid !in db.versions then Refuse(NotFound)
      else
        var v := db.versions[vid];
        if v.status != Draft then Refuse(InvalidStateTransition)
        else if expectedHash != "" && expectedHash != v.content.hash then Refuse(StaleBase)
        else if !ValidSchema(schema) then Refuse(InvalidSchema)
        else if !ResolversKnown(schema, known) then Refuse(UnknownResolver)
        else if !OptionsFit(schema) then Refuse(OptionsMisplaced)
        else Perform(Save(vid, v.(content := v.content.(metadata := metadata, schema := schema))))
    case CommitAutosave(tenant, vid, storedHash, expectedHash) =>
      if !HasTemplate(db, tenant, vid.template) || vid !in db.versions then Refuse(NotFound)
      else
        var v := db.versions[vid];
        if v.status != Draft then Refuse(InvalidStateTransition)
        else if storedHash.None? then Refuse(UploadMissing)
        else if storedHash.value != expectedHash then Refuse(ContentHashMismatch)
        else Perform(Save(vid, v.(content := v.content.(hash := storedHash.value))))
    case SubmitForReview(tenant, vid, now) =>
      if !HasTemplate(db, tenant, vid.template) || vid !in db.versions then Refuse(NotFound)
      else if db.versions[vid].status != Draft then Refuse(InvalidStateTransition)
      else if vid.template !in db.configs then Refuse(NotFound)
      else Perform(Save(vid, Submitted(db.versions[vid], db.configs[vid.template], now)))
    case Review(tenant, vid, actor, roles, accept, now) =>
      if !HasTemplate(db, tenant, vid.template) || vid !in db.versions then Refuse(NotFound)
      else
        var v := db.versions[vid];
        if v.status != InReview || v.pendingReviewerRole.None? then Refuse(InvalidStateTransition)
        else if v.pendingReviewerRole.value !in roles then Refuse(ForbiddenRole)
        else if !ReviewerSegregated(actor, v.author) then Refuse(SegregationViolation)
        else Perform(Save(vid, Reviewed(v, actor, accept, now)))
    case Approve(tenant, vid, actor, roles, accept, now) =>
      if !HasTemplate(db, tenant, vid.template) || vid !in db.versions then Refuse(NotFound)
      else
        var v := db.versions[vid];
        if v.status != (if v.pendingReviewerRole.Some? then Approved else InReview) then Refuse(InvalidStateTransition)
        else if v.pendingApproverRole !in roles then Refuse(ForbiddenRole)
        else if !ApproverSegregated(actor, v.author, v.reviewer) then Refuse(SegregationViolation)
        else if !accept then Perform(Save(vid, SentBack(v)))
        else Perform(Cons(ObsoletePreviousPublished(vid.template, vid, now),
                     Cons(UpdateTemplate(vid.template, db.templates[vid.template].(publishedVersion := Some(vid))),
                     Save(vid, Signed(v, actor, now)))))
    case ArchiveTemplate(tenant, id, now) =>
      if !HasTemplate(db, tenant, id) then Refuse(NotFound)
      else if db.templates[id].archivedAt.Some? then Perform(Nil)
      else Perform(Cons(UpdateTemplate(id, db.templates[id].(archivedAt := Some(now))), Cons(AppendAudit, Nil)))
    case ConfigureApproval(tenant, id, actor, roles, config) =>
      if !HasTemplate(db, tenant, id) then Refuse(NotFound)
      else
        var t := db.templates[id];
        if t.archivedAt.Some? then Refuse(ArchivedTemplate)
        else if "admin" !in roles && (t.publishedVersion.Some? || t.createdBy != actor) then Refuse(ForbiddenRole)
        else if config.approverRole == "" then Refuse(InvalidApprovalConfig)
        else Perform(Cons(UpsertConfig(id, config), Cons(AppendAudit, Nil)))
  }

  // ---------------------------------------------------- writes up to a failure

  /** The database when the call after the first `n` fails, or a write before it is refused. */
  ghost function Written(db: DB, ws: Writes, n: nat): DB
    decreases ws
  {
    if ws == Nil || n == 0 || !Accepts(db, ws.first) then db else Written(Apply(db, ws.first), ws.rest, n - 1)
  }

  ghost predicate AllWritten(db: DB, ws: Writes, n: nat)
    decreases ws
  {
    ws == Nil || (n > 0 && Accepts(db, ws.first) && AllWritten(Apply(db, ws.first), ws.rest, n - 1))
  }

  datatype Outcome = Refused(error: Error) | WriteFailed | Done

  ghost function After(db: DB, op: Op, n: nat): DB {
    match PlanOf(db, op)
    case Refuse(_) => db
    case Perform(ws) => Written(db, ws, n)
  }

  ghost function OutcomeOf(db: DB, op: Op, n: nat): Outcome {
    match PlanOf(db, op)
    case Refuse(e) => Refused(e)
    case Perform(ws) => if AllWritten(db, ws, n) then Done else WriteFailed
  }

  /** An operation and the number of its repository calls that succeed before one fails. */
  datatype Call = Call(op: Op, n: nat)

  ghost function Run(db: DB, calls: seq<Call>): DB {
    if calls == [] then db
    else var last := calls[|calls| - 1]; After(Run(db, calls[..|calls| - 1]), last.op, last.n)
  }
}
