/** The template service as it runs: each method reads rows, changes its own copies of them and
    writes them back, one repository call after another. */
module TemplateService {
  import opened Prelude
  import opened VisibilityGraph
  import opened PlaceholderSchema
  import opened TemplateStore
  import opened TemplateLifecycle

  /** One write, done or not. */
  ghost predicate Tried(before: DB, calls: nat, w: Write, ok: bool, after: DB, callsLeft: nat) {
    && ok == (calls > 0 && Accepts(before, w))
    && after == (if ok then Apply(before, w) else before)
    && (ok ==> callsLeft == calls - 1)
  }

  lemma Advance(before: DB, calls: nat, ws: Writes, ok: bool, after: DB, callsLeft: nat)
    requires ws != Nil && Tried(before, calls, ws.first, ok, after, callsLeft)
    ensures ok ==> Written(before, ws, calls) == Written(after, ws.rest, callsLeft)
    ensures ok ==> (AllWritten(before, ws, calls) <==> AllWritten(after, ws.rest, callsLeft))
    ensures !ok ==> Written(before, ws, calls) == after && !AllWritten(before, ws, calls)
  {
  }

  /** The repository, of which the next `callsLeft` writes reach the database and no more. */
  class Repository {
    var db: DB
    var callsLeft: nat

    constructor (callsLeft: nat)
      ensures db == EMPTY && this.callsLeft == callsLeft
    {
      db, this.callsLeft := EMPTY, callsLeft;
    }

    method Call() returns (ok: bool)
      modifies this
      ensures ok == (old(callsLeft) > 0) && db == old(db)
      ensures callsLeft == if ok then old(callsLeft) - 1 else 0
    {
      ok := callsLeft > 0;
      if ok { callsLeft := callsLeft - 1; }
    }

    method InsertTemplate(id: Key, t: Template) returns (ok: bool)
      modifies this
      ensures Tried(old(db), old(callsLeft), Write.InsertTemplate(id, t), ok, db, callsLeft)
    {
      ok := Call();
      if !ok { return; }
      if id in db.templates || KeyTaken(db, t.tenant, t.key) { return false; }
      db := db.(templates := db.templates[id := t]);
    }

    method UpdateTemplate(id: Key, t: Template) returns (ok: bool)
      modifies this
      ensures Tried(old(db), old(callsLeft), Write.UpdateTemplate(id, t), ok, db, callsLeft)
    {
      ok := Call();
      if !ok { return; }
      if !HasTemplate(db, t.tenant, id) { return false; }
      if t.publishedVersion.Some? && t.publishedVersion.value !in db.versions { return false; }
      db := db.(templates := db.templates[id := t.(createdBy := db.templates[id].createdBy)]);
    }

    method InsertVersion(vid: VersionId, v: Version) returns (ok: bool)
      modifies this
      ensures Tried(old(db), old(callsLeft), Write.InsertVersion(vid, v), ok, db, callsLeft)
    {
      ok := Call();
      if !ok { return; }
      if vid in db.versions || vid.template !in db.templates { return false; }
      db := db.(versions := db.versions[vid := v]);
    }

    method UpdateVersion(vid: VersionId, v: Version) returns (ok: bool)
      modifies this
      ensures Tried(old(db), old(callsLeft), Write.UpdateVersion(vid, v), ok, db, callsLeft)
    {
      ok := Call();
      if !ok { return; }
      if vid !in db.versions { return false; }
      var submitted := db.submitted;
      if db.versions[vid].status == Draft && v.status == InReview { submitted := submitted[vid := v.content]; }
      db := db.(versions := db.versions[vid := Stored(db.versions[vid], v)], submitted := submitted);
    }

    method ObsoletePreviousPublished(id: Key, keep: VersionId, now: int) returns (ok: bool)
      modifies this
      ensures Tried(old(db), old(callsLeft), Write.ObsoletePreviousPublished(id, keep, now), ok, db, callsLeft)
    {
      ok := Call();
      if !ok { return; }
      db := db.(versions := map vid | vid in db.versions ::
                  if Superseded(vid, db.versions[vid], id, keep) then Obsoleted(db.versions[vid], now) else db.versions[vid]);
    }

    method UpsertConfig(id: Key, c: Config) returns (ok: bool)
      modifies this
      ensures Tried(old(db), old(callsLeft), Write.UpsertConfig(id, c), ok, db, callsLeft)
    {
      ok := Call();
      if !ok { return; }
      if id !in db.templates { return false; }
      db := db.(configs := db.configs[id := c]);
    }

    method AppendAudit() returns (ok: bool)
      modifies this
      ensures Tried(old(db), old(callsLeft), Write.AppendAudit, ok, db, callsLeft)
    {
      ok := Call();
    }
  }

  /** The outcome and database after the rest of a plan. */
  ghost predicate Ends(before: DB, ws: Writes, calls: nat, out: Outcome, after: DB) {
    after == Written(before, ws, calls) && out == if AllWritten(before, ws, calls) then Done else WriteFailed
  }

  class Service {
    const repo: Repository

    constructor (repo: Repository)
      ensures this.repo == repo
    {
      this.repo := repo;
    }

    /** The operation had the planned effect, up to the first call that failed, and the database
        keeps its invariant. */
    ghost predicate Ran(before: DB, calls: nat, op: Op, out: Outcome)
      reads repo
    {
      out == OutcomeOf(before, op, calls) && repo.db == After(before, op, calls) && (Inv(before) ==> Inv(repo.db))
    }

    method Audit() returns (out: Outcome)
      modifies repo
      ensures Ends(old(repo.db), Cons(Write.AppendAudit, Nil), old(repo.callsLeft), out, repo.db)
    {
      var ok := repo.AppendAudit();
      Advance(old(repo.db), old(repo.callsLeft), Cons(Write.AppendAudit, Nil), ok, repo.db, repo.callsLeft);
      out := if ok then Done else WriteFailed;
    }

    method SaveVersion(vid: VersionId, v: Version) returns (out: Outcome)
      modifies repo
      ensures Ends(old(repo.db), Save(vid, v), old(repo.callsLeft), out, repo.db)
    {
      var ok := repo.UpdateVersion(vid, v);
      Advance(old(repo.db), old(repo.callsLeft), Save(vid, v), ok, repo.db, repo.callsLeft);
      if !ok { return WriteFailed; }
      out := Audit();
    }

    method CreateTemplate(id: Key, tenant: string, key: string, profile: Profile, actor: string, config: Config)
        returns (out: Outcome)
      modifies repo
      ensures Ran(old(repo.db), old(repo.callsLeft), Op.CreateTemplate(id, tenant, key, profile, actor, config), out)
    {
      ghost var op := Op.CreateTemplate(id, tenant, key, profile, actor, config);
      StepKeeps(repo.db, op, repo.callsLeft);
      var stored := profile;
      if stored.visibility.Unknown? { return Refused(InvalidVisibility); }
      if stored.visibility == Specific && |stored.specificAreas| == 0 { return Refused(InvalidVisibility); }
      if stored.visibility != Specific && |stored.specificAreas| > 0 { stored := stored.(specificAreas := []); }
      if KeyTaken(repo.db, tenant, key) { return Refused(KeyConflict); }
      ghost var ws := PlanOf(repo.db, op).writes;
      var template := Template(tenant, key, stored, 1, None, actor, None);
      var version := FreshVersion(Content("", [], ""), actor, config);
      ghost var db, n := repo.db, repo.callsLeft;
      var ok := repo.InsertTemplate(id, template);
      Advance(db, n, ws, ok, repo.db, repo.callsLeft);
      if !ok { return WriteFailed; }
      db, n := repo.db, repo.callsLeft;
      ok := repo.InsertVersion(VersionId(id, 1), version);
      Advance(db, n, ws.rest, ok, repo.db, repo.callsLeft);
      if !ok { return WriteFailed; }
      db, n := repo.db, repo.callsLeft;
      ok := repo.UpsertConfig(id, config);
      Advance(db, n, ws.rest.rest, ok, repo.db, repo.callsLeft);
      if !ok { return WriteFailed; }
      out := Audit();
    }

    method CreateNextVersion(tenant: string, id: Key, actor: string) returns (out: Outcome)
      modifies repo
      ensures Ran(old(repo.db), old(repo.callsLeft), Op.CreateNextVersion(tenant, id, actor), out)
    {
      ghost var op := Op.CreateNextVersion(tenant, id, actor);
      StepKeeps(repo.db, op, repo.callsLeft);
      if !HasTemplate(repo.db, tenant, id) { return Refused(NotFound); }
      var template := repo.db.templates[id];
      if template.archivedAt.Some? { return Refused(ArchivedTemplate); }
      var source := if template.publishedVersion.Some? then template.publishedVersion.value
                    else VersionId(id, template.latestVersion);
      if source !in repo.db.versions { return Refused(NotFound); }
      ghost var ws := PlanOf(repo.db, op).writes;
      var newNum := template.latestVersion + 1;
      var version := FreshVersion(repo.db.versions[source].content.(hash := ""), actor, Config(None, ""));
      ghost var db, n := repo.db, repo.callsLeft;
      var ok := repo.InsertVersion(VersionId(id, newNum), version);
      Advance(db, n, ws, ok, repo.db, repo.callsLeft);
      if !ok { return WriteFailed; }
      template := template.(latestVersion := newNum);
      db, n := repo.db, repo.callsLeft;
      ok := repo.UpdateTemplate(id, template);
      Advance(db, n, ws.rest, ok, repo.db, repo.callsLeft);
      if !ok { return WriteFailed; }
      out := Audit();
    }

    /** `known` are the keys of the resolver registry, if the service has one. */
    method UpdateSchemas(vid: VersionId, metadata: string, schema: seq<Placeholder>, known: Option<set<string>>,
                         expectedHash: string) returns (out: Outcome)
      modifies repo
      ensures Ran(old(repo.db), old(repo.callsLeft), Op.UpdateSchemas(vid, metadata, schema, known, expectedHash), out)
    {
      StepKeeps(repo.db, Op.UpdateSchemas(vid, metadata, schema, known, expectedHash), repo.callsLeft);
      if vid !in repo.db.versions { return Refused(NotFound); }
      var version := repo.db.versions[vid];
      if version.status != Draft { return Refused(InvalidStateTransition); }
      if expectedHash != "" && expectedHash != version.content.hash { return Refused(StaleBase); }
      var err := ValidatePlaceholders(schema);
      if err.Some? { return Refused(InvalidSchema); }
      var resolvable := CheckResolvers(schema, known);
      if !resolvable { return Refused(UnknownResolver); }
      var placed := CheckOptions(schema);
      if !placed { return Refused(OptionsMisplaced); }
      version := version.(content := version.content.(metadata := metadata));
      version := version.(content := version.content.(schema := schema));
      out := SaveVersion(vid, version);
    }

    /** `deleted` says whether the stored object was ordered to be deleted. */
    method CommitAutosave(tenant: string, vid: VersionId, storedHash: Option<string>, expectedHash: string)
        returns (out: Outcome, deleted: bool)
      modifies repo
      ensures Ran(old(repo.db), old(repo.callsLeft), Op.CommitAutosave(tenant, vid, storedHash, expectedHash), out)
      ensures deleted <==> out == Refused(ContentHashMismatch)
    {
      StepKeeps(repo.db, Op.CommitAutosave(tenant, vid, storedHash, expectedHash), repo.callsLeft);
      deleted := false;
      if !HasTemplate(repo.db, tenant, vid.template) || vid !in repo.db.versions { return Refused(NotFound), deleted; }
      var version := repo.db.versions[vid];
      if version.status != Draft { return Refused(InvalidStateTransition), deleted; }
      if storedHash.None? { return Refused(UploadMissing), deleted; }
      if storedHash.value != expectedHash {
        deleted := true;
        return Refused(ContentHashMismatch), deleted;
      }
      version := version.(content := version.content.(hash := storedHash.value));
      out := SaveVersion(vid, version);
    }

    method SubmitForReview(tenant: string, vid: VersionId, now: int) returns (out: Outcome)
      modifies repo
      ensures Ran(old(repo.db), old(repo.callsLeft), Op.SubmitForReview(tenant, vid, now), out)
    {
      StepKeeps(repo.db, Op.SubmitForReview(tenant, vid, now), repo.callsLeft);
      if !HasTemplate(repo.db, tenant, vid.template) || vid !in repo.db.versions { return Refused(NotFound); }
      var version := repo.db.versions[vid];
      if version.status != Draft { return Refused(InvalidStateTransition); }
      if vid.template !in repo.db.configs { return Refused(NotFound); }
      var config := repo.db.configs[vid.template];
      version := version.(pendingReviewerRole := config.reviewerRole);
      version := version.(pendingApproverRole := config.approverRole);
      var hasReviewer := config.reviewerRole.Some? && config.reviewerRole.value != "";
      if !CanTransition(version.status, InReview, hasReviewer) { return Refused(InvalidStateTransition); }
      version := version.(status := InReview);
      version := version.(submittedAt := Some(now));
      out := SaveVersion(vid, version);
    }

    method Review(tenant: string, vid: VersionId, actor: string, roles: seq<string>, accept: bool, now: int)
        returns (out: Outcome)
      modifies repo
      ensures Ran(old(repo.db), old(repo.callsLeft), Op.Review(tenant, vid, actor, roles, accept, now), out)
    {
      StepKeeps(repo.db, Op.Review(tenant, vid, actor, roles, accept, now), repo.callsLeft);
      if !HasTemplate(repo.db, tenant, vid.template) || vid !in repo.db.versions { return Refused(NotFound); }
      var version := repo.db.versions[vid];
      if version.status != InReview { return Refused(InvalidStateTransition); }
      if version.pendingReviewerRole.None? { return Refused(InvalidStateTransition); }
      if version.pendingReviewerRole.value !in roles { return Refused(ForbiddenRole); }
      if !ReviewerSegregated(actor, version.author) { return Refused(SegregationViolation); }
      if accept {
        if !CanTransition(version.status, Approved, true) { return Refused(InvalidStateTransition); }
        version := version.(status := Approved);
        version := version.(reviewer := Some(actor));
        version := version.(reviewedAt := Some(now));
      } else {
        if !CanTransition(version.status, Draft, true) { return Refused(InvalidStateTransition); }
        version := version.(status := Draft);
        version := version.(submittedAt := None);
      }
      out := SaveVersion(vid, version);
    }

    method Approve(tenant: string, vid: VersionId, actor: string, roles: seq<string>, accept: bool, now: int)
        returns (out: Outcome)
      modifies repo
      ensures Ran(old(repo.db), old(repo.callsLeft), Op.Approve(tenant, vid, actor, roles, accept, now), out)
    {
      ghost var op := Op.Approve(tenant, vid, actor, roles, accept, now);
      StepKeeps(repo.db, op, repo.callsLeft);
      if !HasTemplate(repo.db, tenant, vid.template) || vid !in repo.db.versions { return Refused(NotFound); }
      var template, version := repo.db.templates[vid.template], repo.db.versions[vid];
      var hasReviewer := version.pendingReviewerRole.Some?;
      if hasReviewer {
        if version.status != Approved { return Refused(InvalidStateTransition); }
      } else if version.status != InReview {
        return Refused(InvalidStateTransition);
      }
      if version.pendingApproverRole !in roles { return Refused(ForbiddenRole); }
      if !ApproverSegregated(actor, version.author, version.reviewer) { return Refused(SegregationViolation); }
      if accept {
        if !CanTransition(version.status, Published, hasReviewer) { return Refused(InvalidStateTransition); }
        ghost var ws := PlanOf(repo.db, op).writes;
        version := version.(status := Published, approver := Some(actor));
        version := version.(approvedAt := Some(now), publishedAt := Some(now));
        ghost var db, n := repo.db, repo.callsLeft;
        var ok := repo.ObsoletePreviousPublished(vid.template, vid, now);
        Advance(db, n, ws, ok, repo.db, repo.callsLeft);
        if !ok { return WriteFailed; }
        template := template.(publishedVersion := Some(vid));
        db, n := repo.db, repo.callsLeft;
        ok := repo.UpdateTemplate(vid.template, template);
        Advance(db, n, ws.rest, ok, repo.db, repo.callsLeft);
        if !ok { return WriteFailed; }
      } else {
        if !CanTransition(version.status, Draft, hasReviewer) { return Refused(InvalidStateTransition); }
        version := version.(status := Draft);
        version := version.(submittedAt := None, reviewedAt := None, approvedAt := None);
      }
      out := SaveVersion(vid, version);
    }

    method ArchiveTemplate(tenant: string, id: Key, now: int) returns (out: Outcome)
      modifies repo
      ensures Ran(old(repo.db), old(repo.callsLeft), Op.ArchiveTemplate(tenant, id, now), out)
    {
      ghost var op := Op.ArchiveTemplate(tenant, id, now);
      StepKeeps(repo.db, op, repo.callsLeft);
      if !HasTemplate(repo.db, tenant, id) { return Refused(NotFound); }
      var template := repo.db.templates[id];
      if template.archivedAt.Some? { return Done; }
      template := template.(archivedAt := Some(now));
      ghost var db, n := repo.db, repo.callsLeft;
      var ok := repo.UpdateTemplate(id, template);
      Advance(db, n, PlanOf(db, op).writes, ok, repo.db, repo.callsLeft);
      if !ok { return WriteFailed; }
      out := Audit();
    }

    method UpsertApprovalConfig(tenant: string, id: Key, actor: string, roles: seq<string>, config: Config)
        returns (out: Outcome)
      modifies repo
      ensures Ran(old(repo.db), old(repo.callsLeft), Op.ConfigureApproval(tenant, id, actor, roles, config), out)
    {
      ghost var op := Op.ConfigureApproval(tenant, id, actor, roles, config);
      StepKeeps(repo.db, op, repo.callsLeft);
      if !HasTemplate(repo.db, tenant, id) { return Refused(NotFound); }
      var template := repo.db.templates[id];
      if template.archivedAt.Some? { return Refused(ArchivedTemplate); }
      if template.publishedVersion.Some? {
        if "admin" !in roles { return Refused(ForbiddenRole); }
      } else if template.createdBy != actor && "admin" !in roles {
        return Refused(ForbiddenRole);
      }
      if config.approverRole == "" { return Refused(InvalidApprovalConfig); }
      ghost var db, n := repo.db, repo.callsLeft;
      var ok := repo.UpsertConfig(id, config);
      Advance(db, n, PlanOf(db, op).writes, ok, repo.db, repo.callsLeft);
      if !ok { return WriteFailed; }
      out := Audit();
    }
  }

  lemma StepKeeps(db: DB, op: Op, n: nat)
    ensures Inv(db) ==> Inv(After(db, op, n))
  {
    if Inv(db) { StepKeepsInv(db, op, n); }
  }
}
