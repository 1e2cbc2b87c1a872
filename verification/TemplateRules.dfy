/** What each template operation asks for and what it changes, in terms of its arguments and the
    stored rows: who may do it, in which state, and which columns end up with which values. */
module TemplateRules {
  import opened Prelude
  import opened VisibilityGraph
  import opened PlaceholderSchema
  import opened TemplateStore
  import opened TemplateLifecycle

  // ----------------------------------------------------------------- rows

  ghost predicate TemplateOf(db: DB, tenant: string, id: Key) {
    id in db.templates && db.templates[id].tenant == tenant
  }

  /** The operation stopped where it was refused, and nothing changed. */
  ghost predicate RefusedWith(db: DB, op: Op, n: nat, e: Error) {
    OutcomeOf(db, op, n) == Refused(e) && After(db, op, n) == db
  }

  ghost predicate GoesOn(db: DB, op: Op, n: nat) {
    !OutcomeOf(db, op, n).Refused?
  }

  /** Row vid has become v, but for its author; templates and configs are as before. */
  ghost predicate Became(db: DB, d: DB, vid: VersionId, v: Version) {
    && vid in db.versions && OnlyRow(db.versions, d.versions, vid)
    && d.versions[vid] == v.(author := db.versions[vid].author)
    && d.templates == db.templates && d.configs == db.configs
  }

  lemma SaveBecomes(db: DB, vid: VersionId, v: Version, n: nat)
    requires vid in db.versions
    ensures n == 0 ==> Written(db, Save(vid, v), n) == db
    ensures n > 0 ==> Became(db, Written(db, Save(vid, v), n), vid, v)
    ensures AllWritten(db, Save(vid, v), n) <==> n >= 2
  {
    OneWrite(db, UpdateVersion(vid, v), Cons(AppendAudit, Nil), n);
    if n > 0 { LastAudit(Apply(db, UpdateVersion(vid, v)), n - 1); }
  }

  // --------------------------------------------------------------- approval

  /** A decision on a version goes on exactly for its tenant, in the state its pending roles ask
      for, by someone with its approver role who is neither its author nor its reviewer. */
  lemma ApproveIff(db: DB, tenant: string, vid: VersionId, actor: string, roles: seq<string>, accept: bool, now: int, n: nat)
    ensures var op := Approve(tenant, vid, actor, roles, accept, now);
            && (GoesOn(db, op, n) <==>
                  && TemplateOf(db, tenant, vid.template) && vid in db.versions
                  && (db.versions[vid].pendingReviewerRole.Some? ==> db.versions[vid].status == Approved)
                  && (db.versions[vid].pendingReviewerRole.None? ==> db.versions[vid].status == InReview)
                  && db.versions[vid].pendingApproverRole in roles
                  && actor != db.versions[vid].author && db.versions[vid].reviewer != Some(actor))
            && (!GoesOn(db, op, n) ==>
                  if !TemplateOf(db, tenant, vid.template) || vid !in db.versions then RefusedWith(db, op, n, NotFound)
                  else if db.versions[vid].status != (if db.versions[vid].pendingReviewerRole.Some? then Approved else InReview)
                    then RefusedWith(db, op, n, InvalidStateTransition)
                  else if db.versions[vid].pendingApproverRole !in roles then RefusedWith(db, op, n, ForbiddenRole)
                  else RefusedWith(db, op, n, SegregationViolation))
  {
  }

  /** Rejecting sends the version back to draft. */
  lemma RejectWrites(db: DB, tenant: string, vid: VersionId, actor: string, roles: seq<string>, now: int, n: nat)
    requires GoesOn(db, Approve(tenant, vid, actor, roles, false, now), n)
    ensures var op := Approve(tenant, vid, actor, roles, false, now);
            && vid in db.versions
            && (n == 0 ==> After(db, op, n) == db)
            && (n > 0 ==> Became(db, After(db, op, n), vid, db.versions[vid].(status := Draft, submittedAt := None,
                                                                             reviewedAt := None, approvedAt := None)))
            && (OutcomeOf(db, op, n) == Done <==> n >= 2)
  {
    SaveBecomes(db, vid, SentBack(db.versions[vid]), n);
  }

  /** Accepting publishes it, call by call: the others are retired, the template points here, the
      version is signed. */
  lemma AcceptWrites(db: DB, tenant: string, vid: VersionId, actor: string, roles: seq<string>, now: int, n: nat)
    requires GoesOn(db, Approve(tenant, vid, actor, roles, true, now), n)
    ensures var op := Approve(tenant, vid, actor, roles, true, now);
            var d := After(db, op, n);
            && vid in db.versions && vid.template in db.templates && vid in d.versions && vid.template in d.templates
            && d.versions.Keys == db.versions.Keys && d.configs == db.configs
            && OnlyRow(db.templates, d.templates, vid.template)
            && d.templates[vid.template] == (if n < 2 then db.templates[vid.template]
                                             else db.templates[vid.template].(publishedVersion := Some(vid)))
            && d.versions[vid] == (if n < 3 then db.versions[vid]
                                   else db.versions[vid].(status := Published, approver := Some(actor),
                                                          approvedAt := Some(now), publishedAt := Some(now)))
            && (forall x :: x in db.versions && x != vid ==>
                  d.versions[x] == if n > 0 && x.template == vid.template && db.versions[x].status == Published
                                   then db.versions[x].(status := Obsolete, obsoletedAt := Some(now)) else db.versions[x])
            && (OutcomeOf(db, op, n) == Done <==> n >= 4)
  {
    var op := Approve(tenant, vid, actor, roles, true, now);
    var d1, d2, d3 := PublishStages(db, op, n);
    var ws := PlanOf(db, op).writes;
    assert NoConfigs(ws.rest.rest.rest) && NoConfigs(ws.rest.rest) && NoConfigs(ws.rest);
    ConfigsStay(db, ws, n);
  }

  ghost predicate NoConfigs(ws: Writes)
    decreases ws
  {
    ws == Nil || (!ws.first.UpsertConfig? && NoConfigs(ws.rest))
  }

  lemma {:induction false} ConfigsStay(db: DB, ws: Writes, n: nat)
    requires NoConfigs(ws)
    ensures Written(db, ws, n).configs == db.configs
    decreases ws
  {
    if ws != Nil && n > 0 && Accepts(db, ws.first) { ConfigsStay(Apply(db, ws.first), ws.rest, n - 1); }
  }

  // ----------------------------------------------------- review, submission

  /** A review goes on exactly in review, with a reviewer role pending that the reviewer has, and
      not by the author. */
  lemma ReviewIff(db: DB, tenant: string, vid: VersionId, actor: string, roles: seq<string>, accept: bool, now: int, n: nat)
    ensures var op := Review(tenant, vid, actor, roles, accept, now);
            && (GoesOn(db, op, n) <==>
                  && TemplateOf(db, tenant, vid.template) && vid in db.versions
                  && db.versions[vid].status == InReview && db.versions[vid].pendingReviewerRole.Some?
                  && db.versions[vid].pendingReviewerRole.value in roles && actor != db.versions[vid].author)
            && (!GoesOn(db, op, n) ==>
                  if !TemplateOf(db, tenant, vid.template) || vid !in db.versions then RefusedWith(db, op, n, NotFound)
                  else if db.versions[vid].status != InReview || db.versions[vid].pendingReviewerRole.None?
                    then RefusedWith(db, op, n, InvalidStateTransition)
                  else if db.versions[vid].pendingReviewerRole.value !in roles then RefusedWith(db, op, n, ForbiddenRole)
                  else RefusedWith(db, op, n, SegregationViolation))
  {
  }

  lemma ReviewWrites(db: DB, tenant: string, vid: VersionId, actor: string, roles: seq<string>, accept: bool, now: int, n: nat)
    requires GoesOn(db, Review(tenant, vid, actor, roles, accept, now), n)
    ensures var op := Review(tenant, vid, actor, roles, accept, now);
            && vid in db.versions
            && (n == 0 ==> After(db, op, n) == db)
            && (n > 0 ==> Became(db, After(db, op, n), vid,
                                 if accept then db.versions[vid].(status := Approved, reviewer := Some(actor), reviewedAt := Some(now))
                                 else db.versions[vid].(status := Draft, submittedAt := None)))
            && (OutcomeOf(db, op, n) == Done <==> n >= 2)
  {
    SaveBecomes(db, vid, Reviewed(db.versions[vid], actor, accept, now), n);
  }

  /** A draft with an approval config goes into review under the config's roles. */
  lemma SubmitIff(db: DB, tenant: string, vid: VersionId, now: int, n: nat)
    ensures var op := SubmitForReview(tenant, vid, now);
            && (GoesOn(db, op, n) <==> && TemplateOf(db, tenant, vid.template) && vid in db.versions
                                       && db.versions[vid].status == Draft && vid.template in db.configs)
            && (!GoesOn(db, op, n) ==>
                  RefusedWith(db, op, n, if TemplateOf(db, tenant, vid.template) && vid in db.versions && db.versions[vid].status != Draft
                                         then InvalidStateTransition else NotFound))
            && (GoesOn(db, op, n) ==>
                  && (n == 0 ==> After(db, op, n) == db)
                  && (n > 0 ==> Became(db, After(db, op, n), vid,
                                       db.versions[vid].(status := InReview, submittedAt := Some(now),
                                                         pendingReviewerRole := db.configs[vid.template].reviewerRole,
                                                         pendingApproverRole := db.configs[vid.template].approverRole)))
                  && (OutcomeOf(db, op, n) == Done <==> n >= 2))
  {
    if GoesOn(db, SubmitForReview(tenant, vid, now), n) {
      SaveBecomes(db, vid, Submitted(db.versions[vid], db.configs[vid.template], now), n);
    }
  }

  // ------------------------------------------------------------------ edits

  /** Schemas are stored for drafts whose hash is the expected one, where one is expected. */
  lemma UpdateSchemasIff(db: DB, vid: VersionId, metadata: string, schema: seq<Placeholder>,
                         known: Option<set<string>>, expectedHash: string, n: nat)
    ensures var op := UpdateSchemas(vid, metadata, schema, known, expectedHash);
            && (GoesOn(db, op, n) <==>
                  && vid in db.versions && db.versions[vid].status == Draft
                  && (expectedHash == "" || expectedHash == db.versions[vid].content.hash)
                  && ValidSchema(schema) && ResolversKnown(schema, known) && OptionsFit(schema))
            && (!GoesOn(db, op, n) ==>
                  if vid !in db.versions then RefusedWith(db, op, n, NotFound)
                  else if db.versions[vid].status != Draft then RefusedWith(db, op, n, InvalidStateTransition)
                  else if expectedHash != "" && expectedHash != db.versions[vid].content.hash then RefusedWith(db, op, n, StaleBase)
                  else if !ValidSchema(schema) then RefusedWith(db, op, n, InvalidSchema)
                  else if !ResolversKnown(schema, known) then RefusedWith(db, op, n, UnknownResolver)
                  else RefusedWith(db, op, n, OptionsMisplaced))
            && (GoesOn(db, op, n) ==>
                  && (n == 0 ==> After(db, op, n) == db)
                  && (n > 0 ==> Became(db, After(db, op, n), vid, db.versions[vid].(content :=
                                         Content(metadata, schema, db.versions[vid].content.hash))))
                  && (OutcomeOf(db, op, n) == Done <==> n >= 2))
  {
    if GoesOn(db, UpdateSchemas(vid, metadata, schema, known, expectedHash), n) {
      var v := db.versions[vid];
      SaveBecomes(db, vid, v.(content := v.content.(metadata := metadata, schema := schema)), n);
    }
  }

  /** An autosave stores the hash of the object that is there, if it is the expected one. */
  lemma TemplateAutosaveIff(db: DB, tenant: string, vid: VersionId, storedHash: Option<string>, expectedHash: string, n: nat)
    ensures var op := CommitAutosave(tenant, vid, storedHash, expectedHash);
            && (GoesOn(db, op, n) <==> && TemplateOf(db, tenant, vid.template) && vid in db.versions
                                       && db.versions[vid].status == Draft && storedHash == Some(expectedHash))
            && (!GoesOn(db, op, n) ==>
                  if !TemplateOf(db, tenant, vid.template) || vid !in db.versions then RefusedWith(db, op, n, NotFound)
                  else if db.versions[vid].status != Draft then RefusedWith(db, op, n, InvalidStateTransition)
                  else RefusedWith(db, op, n, if storedHash.None? then UploadMissing else ContentHashMismatch))
            && (GoesOn(db, op, n) ==>
                  && (n == 0 ==> After(db, op, n) == db)
                  && (n > 0 ==> Became(db, After(db, op, n), vid, db.versions[vid].(content :=
                                         Content(db.versions[vid].content.metadata, db.versions[vid].content.schema, expectedHash))))
                  && (OutcomeOf(db, op, n) == Done <==> n >= 2))
  {
    if GoesOn(db, CommitAutosave(tenant, vid, storedHash, expectedHash), n) {
      var v := db.versions[vid];
      SaveBecomes(db, vid, v.(content := v.content.(hash := expectedHash)), n);
    }
  }

  // -------------------------------------------------------------- templates

  ghost predicate UsedKey(db: DB, tenant: string, key: string) {
    exists i :: i in db.templates && db.templates[i].tenant == tenant && db.templates[i].key == key
  }

  lemma CreateTemplateIff(db: DB, id: Key, tenant: string, key: string, profile: Profile, actor: string, config: Config, n: nat)
    ensures var op := CreateTemplate(id, tenant, key, profile, actor, config);
            && (GoesOn(db, op, n) <==>
                  && (profile.visibility == Public || profile.visibility == Internal
                      || (profile.visibility == Specific && profile.specificAreas != []))
                  && !UsedKey(db, tenant, key))
            && (!GoesOn(db, op, n) ==>
                  RefusedWith(db, op, n, if profile.visibility == Public || profile.visibility == Internal
                                            || (profile.visibility == Specific && profile.specificAreas != [])
                                         then KeyConflict else InvalidVisibility))
  {
  }

  /** A template starts with version 1, an empty draft of its creator under the roles given. */
  lemma CreateTemplateWrites(db: DB, id: Key, tenant: string, key: string, profile: Profile, actor: string, config: Config, n: nat)
    requires GoesOn(db, CreateTemplate(id, tenant, key, profile, actor, config), n)
    requires OutcomeOf(db, CreateTemplate(id, tenant, key, profile, actor, config), n) == Done
    ensures var d := After(db, CreateTemplate(id, tenant, key, profile, actor, config), n);
            var first := VersionId(id, 1);
            && n >= 4
            && id !in db.templates && OnlyRow(db.templates, d.templates, id)
            && d.templates[id].tenant == tenant && d.templates[id].key == key && d.templates[id].createdBy == actor
            && d.templates[id].profile == profile.(specificAreas := if profile.visibility == Specific then profile.specificAreas else [])
            && d.templates[id].latestVersion == 1 && d.templates[id].publishedVersion == None && d.templates[id].archivedAt == None
            && first !in db.versions && OnlyRow(db.versions, d.versions, first)
            && d.versions[first].status == Draft && d.versions[first].author == actor
            && d.versions[first].content == Content("", [], "")
            && d.versions[first].pendingReviewerRole == config.reviewerRole
            && d.versions[first].pendingApproverRole == config.approverRole
            && d.versions[first].reviewer == None && d.versions[first].approver == None && d.versions[first].submittedAt == None
            && OnlyRow(db.configs, d.configs, id) && d.configs[id] == config
  {
    var op := CreateTemplate(id, tenant, key, profile, actor, config);
    var ws := PlanOf(db, op).writes;
    OneWrite(db, ws.first, ws.rest, n);
    var d1 := Apply(db, ws.first);
    OneWrite(d1, ws.rest.first, ws.rest.rest, n - 1);
    var d2 := Apply(d1, ws.rest.first);
    OneWrite(d2, ws.rest.rest.first, ws.rest.rest.rest, n - 2);
    LastAudit(Apply(d2, ws.rest.rest.first), n - 3);
  }

  /** The next version is a draft of the caller with the schemas of the published version, or else
      of the latest, and no roles yet. */
  lemma NextVersionWrites(db: DB, tenant: string, id: Key, actor: string, n: nat)
    requires OutcomeOf(db, CreateNextVersion(tenant, id, actor), n) == Done
    ensures var d := After(db, CreateNextVersion(tenant, id, actor), n);
            && n >= 3 && TemplateOf(db, tenant, id)
            && var t := db.templates[id];
            && var next := VersionId(id, t.latestVersion + 1);
            && var source := if t.publishedVersion.Some? then t.publishedVersion.value else VersionId(id, t.latestVersion);
            && source in db.versions && next !in db.versions && OnlyRow(db.versions, d.versions, next)
            && d.versions[next].status == Draft && d.versions[next].author == actor
            && d.versions[next].content.metadata == db.versions[source].content.metadata
            && d.versions[next].content.schema == db.versions[source].content.schema && d.versions[next].content.hash == ""
            && d.versions[next].pendingReviewerRole == None && d.versions[next].pendingApproverRole == ""
            && d.versions[next].reviewer == None && d.versions[next].approver == None && d.versions[next].submittedAt == None
            && OnlyRow(db.templates, d.templates, id) && d.templates[id] == t.(latestVersion := t.latestVersion + 1)
            && d.configs == db.configs
  {
    var op := CreateNextVersion(tenant, id, actor);
    var ws := PlanOf(db, op).writes;
    OneWrite(db, ws.first, ws.rest, n);
    var d1 := Apply(db, ws.first);
    OneWrite(d1, ws.rest.first, ws.rest.rest, n - 1);
    LastAudit(Apply(d1, ws.rest.first), n - 2);
  }

  lemma NextVersionRefusals(db: DB, tenant: string, id: Key, actor: string, n: nat)
    requires Inv(db)
    ensures var op := CreateNextVersion(tenant, id, actor);
            if !TemplateOf(db, tenant, id) then RefusedWith(db, op, n, NotFound)
            else if db.templates[id].archivedAt.Some? then RefusedWith(db, op, n, ArchivedTemplate)
            else if VersionId(id, db.templates[id].latestVersion) !in db.versions then RefusedWith(db, op, n, NotFound)
            else GoesOn(db, op, n)
  {
    if id in db.templates { SourceIffLatest(db, id); }
  }

  /** Archiving is once, and sets the time alone. */
  lemma ArchiveIff(db: DB, tenant: string, id: Key, now: int, n: nat)
    requires Inv(db)
    ensures var op := ArchiveTemplate(tenant, id, now);
            var d := After(db, op, n);
            if !TemplateOf(db, tenant, id) then RefusedWith(db, op, n, NotFound)
            else if db.templates[id].archivedAt.Some? then OutcomeOf(db, op, n) == Done && d == db
            else
              && d.versions == db.versions && d.configs == db.configs
              && OnlyRow(db.templates, d.templates, id)
              && d.templates[id] == (if n == 0 then db.templates[id] else db.templates[id].(archivedAt := Some(now)))
              && (OutcomeOf(db, op, n) == Done <==> n >= 2)
  {
    if TemplateOf(db, tenant, id) && db.templates[id].archivedAt.None? {
      var t := db.templates[id].(archivedAt := Some(now));
      if t.publishedVersion.Some? { assert PublishedLink(db, id, t.publishedVersion.value); }
      OneWrite(db, UpdateTemplate(id, t), Cons(AppendAudit, Nil), n);
      if n > 0 { LastAudit(Apply(db, UpdateTemplate(id, t)), n - 1); }
    }
  }

  /** The roles of a template are set by an administrator or, before the first publication, by its
      creator; an approver role is needed. */
  lemma ConfigureIff(db: DB, tenant: string, id: Key, actor: string, roles: seq<string>, config: Config, n: nat)
    ensures var op := ConfigureApproval(tenant, id, actor, roles, config);
            var d := After(db, op, n);
            if !TemplateOf(db, tenant, id) then RefusedWith(db, op, n, NotFound)
            else if db.templates[id].archivedAt.Some? then RefusedWith(db, op, n, ArchivedTemplate)
            else if !("admin" in roles || (db.templates[id].publishedVersion.None? && db.templates[id].createdBy == actor))
              then RefusedWith(db, op, n, ForbiddenRole)
            else if config.approverRole == "" then RefusedWith(db, op, n, InvalidApprovalConfig)
            else
              && d.templates == db.templates && d.versions == db.versions
              && (if n == 0 then d == db else OnlyRow(db.configs, d.configs, id) && d.configs[id] == config)
              && (OutcomeOf(db, op, n) == Done <==> n >= 2)
  {
    var op := ConfigureApproval(tenant, id, actor, roles, config);
    if GoesOn(db, op, n) {
      OneWrite(db, UpsertConfig(id, config), Cons(AppendAudit, Nil), n);
      if n > 0 { LastAudit(Apply(db, UpsertConfig(id, config)), n - 1); }
    }
  }

  // ------------------------------------------------ who published, on any run

  predicate Accepting(op: Op, vid: VersionId) {
    op.Approve? && op.accept && op.vid == vid
  }

  /** Writes that do not give row vid a published or obsolete status. */
  ghost predicate KeepsLive(ws: Writes, vid: VersionId)
    decreases ws
  {
    ws == Nil || (&& (match ws.first
                      case InsertVersion(x, v) => x == vid ==> v.status != Published && v.status != Obsolete
                      case UpdateVersion(x, v) => x == vid ==> v.status != Published && v.status != Obsolete
                      case _ => true)
                  && KeepsLive(ws.rest, vid))
  }

  /** Neither published now nor formerly. */
  ghost predicate Live(db: DB, vid: VersionId) {
    vid in db.versions ==> db.versions[vid].status != Published && db.versions[vid].status != Obsolete
  }

  lemma {:induction false} LiveKept(db: DB, ws: Writes, n: nat, vid: VersionId)
    requires KeepsLive(ws, vid) && Live(db, vid)
    ensures Live(Written(db, ws, n), vid)
    decreases ws
  {
    if ws != Nil && n > 0 && Accepts(db, ws.first) {
      assert Live(Apply(db, ws.first), vid);
      LiveKept(Apply(db, ws.first), ws.rest, n - 1, vid);
    }
  }

  lemma SaveKeepsLive(vid: VersionId, v: Version, x: VersionId)
    requires vid == x ==> v.status != Published && v.status != Obsolete
    ensures KeepsLive(Save(vid, v), x)
  {
    assert KeepsLive(Cons(AppendAudit, Nil), x);
  }

  lemma OthersDoNotPublish(db: DB, op: Op, vid: VersionId)
    requires PlanOf(db, op).Perform? && !Accepting(op, vid)
    ensures KeepsLive(PlanOf(db, op).writes, vid)
  {
    var ws := PlanOf(db, op).writes;
    assert KeepsLive(Cons(AppendAudit, Nil), vid);
    if Saves(op) {
      var v := SavePlan(db, op);
      SaveKeepsLive(op.vid, v, vid);
    } else if op.Approve? {
      SaveKeepsLive(op.vid, Signed(db.versions[op.vid], op.actor, op.now), vid);
      assert KeepsLive(ws.rest, vid);
    } else if op.CreateTemplate? {
      assert KeepsLive(ws.rest.rest, vid) && KeepsLive(ws.rest, vid);
    } else if op.CreateNextVersion? {
      assert KeepsLive(ws.rest, vid);
    }
  }

  /** A version becomes published by one step only: being accepted by someone with its pending
      approver role, who then stands as its approver. */
  lemma PublishingStep(db: DB, op: Op, n: nat, vid: VersionId)
    requires Live(db, vid) && !Live(After(db, op, n), vid)
    ensures op.Approve? && op.accept && op.vid == vid && n >= 3 && vid in db.versions
    ensures TemplateOf(db, op.tenant, vid.template)
    ensures db.versions[vid].pendingApproverRole in op.roles
    ensures op.actor != db.versions[vid].author && db.versions[vid].reviewer != Some(op.actor)
    ensures After(db, op, n).versions[vid].status == Published
    ensures After(db, op, n).versions[vid].pendingApproverRole == db.versions[vid].pendingApproverRole
    ensures After(db, op, n).versions[vid].approver == Some(op.actor)
  {
    if !Accepting(op, vid) {
      OthersDoNotPublish(db, op, vid);
      LiveKept(db, PlanOf(db, op).writes, n, vid);
      assert false;
    } else {
      AcceptWrites(db, op.tenant, vid, op.actor, op.roles, op.now, n);
      ApproveIff(db, op.tenant, vid, op.actor, op.roles, true, op.now, n);
    }
  }

  /** The call that accepted the version, and the role it did so in. */
  ghost predicate AcceptedBy(call: Call, vid: VersionId, v: Version) {
    && call.op.Approve? && call.op.accept && call.op.vid == vid
    && v.pendingApproverRole in call.op.roles && v.approver == Some(call.op.actor)
  }

  /** On every run, whatever calls fail: a version that is or was published was accepted by its
      approver, who had the approver role it was submitted under. */
  lemma {:induction false} PublishedByItsRole(calls: seq<Call>, vid: VersionId)
    requires !Live(Run(EMPTY, calls), vid)
    ensures exists i :: 0 <= i < |calls| && AcceptedBy(calls[i], vid, Run(EMPTY, calls).versions[vid])
  {
    var n := |calls| - 1;
    var before, last := Run(EMPTY, calls[..n]), calls[n];
    RunKeepsInv(calls[..n]);
    if !Live(before, vid) {
      PublishedByItsRole(calls[..n], vid);
      StepSparesPublished(before, last.op, last.n, vid);
      var i :| 0 <= i < n && AcceptedBy(calls[..n][i], vid, before.versions[vid]);
      assert AcceptedBy(calls[i], vid, Run(EMPTY, calls).versions[vid]);
    } else {
      PublishingStep(before, last.op, last.n, vid);
      assert AcceptedBy(calls[n], vid, Run(EMPTY, calls).versions[vid]);
    }
  }

}
