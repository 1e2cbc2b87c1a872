/** What every intermediate state of every sequential run of the template operations keeps. */
module TemplateLifecycle {
  import opened Prelude
  import opened PlaceholderSchema
  import opened TemplateStore

  // --------------------------------------------------------------- invariant

  /** Rows refer to rows that exist, and a template's published version is its own. */
  ghost predicate Linked(db: DB) {
    && (forall vid :: vid in db.versions ==> vid.template in db.templates)
    && (forall id :: id in db.templates && db.templates[id].publishedVersion.Some? ==>
          PublishedLink(db, id, db.templates[id].publishedVersion.value))
  }

  ghost predicate PublishedLink(db: DB, id: Key, p: VersionId) {
    p in db.versions && p.template == id
  }

  /** A published version is the one its template names. */
  ghost predicate NamedIfPublished(db: DB) {
    forall vid :: vid in db.versions && db.versions[vid].status == Published ==> Named(db, vid)
  }

  ghost predicate Named(db: DB, vid: VersionId) {
    vid.template in db.templates && db.templates[vid.template].publishedVersion == Some(vid)
  }

  /** Beyond draft, a version still has the content it was submitted with. */
  ghost predicate AsSubmitted(db: DB) {
    forall vid :: vid in db.versions && db.versions[vid].status != Draft ==> Unedited(db, vid)
  }

  ghost predicate Unedited(db: DB, vid: VersionId)
    requires vid in db.versions
  {
    vid in db.submitted && db.submitted[vid] == db.versions[vid].content
  }

  ghost predicate Reviewable(v: Version) {
    v.pendingReviewerRole.Some? ==> v.reviewer.Some? && v.reviewer.value != v.author
  }

  /** Four eyes: who signed what, by status. */
  ghost predicate Segregated(v: Version) {
    && (v.status == Approved ==> v.pendingReviewerRole.Some? && Reviewable(v))
    && (v.status == Published || v.status == Obsolete ==>
          Reviewable(v) && v.approver.Some? && v.approver.value != v.author && v.reviewer != v.approver)
  }

  ghost predicate VersionOk(v: Version) {
    && Segregated(v) && ValidSchema(v.content.schema) && OptionsFit(v.content.schema)
    && (v.submittedAt.Some? <==> v.status != Draft)
  }

  ghost predicate VersionsOk(versions: map<VersionId, Version>) {
    forall vid :: vid in versions ==> VersionOk(versions[vid])
  }

  /** Numbers run ahead of latest_version by at most one, when the template update was lost. */
  ghost predicate Numbered(db: DB) {
    && (forall id :: id in db.templates ==> db.templates[id].latestVersion >= 1)
    && (forall vid :: vid in db.versions && vid.template in db.templates ==>
          1 <= vid.number <= db.templates[vid.template].latestVersion + 1)
  }

  /** A template with any version has its latest one. */
  ghost predicate LatestPresent(db: DB) {
    forall vid :: vid in db.versions && vid.template in db.templates ==> HasLatest(db, vid.template)
  }

  ghost predicate HasLatest(db: DB, id: Key)
    requires id in db.templates
  {
    VersionId(id, db.templates[id].latestVersion) in db.versions
  }

  ghost predicate Inv(db: DB) {
    && Linked(db) && NamedIfPublished(db) && AsSubmitted(db) && VersionsOk(db.versions)
    && Numbered(db) && LatestPresent(db)
  }

  // ------------------------------------------------------- writes that keep it

  ghost predicate Safe(db: DB, w: Write)
    requires Accepts(db, w)
  {
    match w
    case InsertTemplate(id, t) =>
      t.publishedVersion.None? && t.latestVersion == 1 && forall vid :: vid in db.versions ==> vid.template != id
    case UpdateTemplate(id, t) =>
      && t.latestVersion >= db.templates[id].latestVersion
      && (t.latestVersion == db.templates[id].latestVersion || VersionId(id, t.latestVersion) in db.versions)
      && (t.publishedVersion.Some? ==> t.publishedVersion.value.template == id)
      && (forall vid :: vid in db.versions && vid.template == id && db.versions[vid].status == Published ==>
            t.publishedVersion == Some(vid))
    case InsertVersion(vid, v) =>
      && v.status == Draft && VersionOk(v) && 1 <= vid.number <= db.templates[vid.template].latestVersion + 1
      && (HasLatest(db, vid.template) || vid.number == db.templates[vid.template].latestVersion)
    case UpdateVersion(vid, v) =>
      var row := db.versions[vid];
      && v.author == row.author && VersionOk(v)
      && (v.status == Published ==> Named(db, vid))
      && (v.status != Draft ==> (row.status == Draft && v.status == InReview) || (row.status != Draft && v.content == row.content))
    case ObsoletePreviousPublished(id, keep, now) => true
    case UpsertConfig(id, c) => true
    case AppendAudit => true
  }

  lemma UpdateVersionKeepsNames(db: DB, vid: VersionId, v: Version)
    requires Inv(db) && Accepts(db, UpdateVersion(vid, v)) && Safe(db, UpdateVersion(vid, v))
    ensures var d := Apply(db, UpdateVersion(vid, v)); Linked(d) && NamedIfPublished(d)
  {
    var d := Apply(db, UpdateVersion(vid, v));
    forall x | x in d.versions && d.versions[x].status == Published ensures Named(d, x) {
      if x != vid { assert Named(db, x); }
    }
    forall id | id in d.templates && d.templates[id].publishedVersion.Some?
      ensures PublishedLink(d, id, d.templates[id].publishedVersion.value)
    {
      assert PublishedLink(db, id, db.templates[id].publishedVersion.value);
    }
  }

  lemma UpdateVersionKeepsContent(db: DB, vid: VersionId, v: Version)
    requires Inv(db) && Accepts(db, UpdateVersion(vid, v)) && Safe(db, UpdateVersion(vid, v))
    ensures var d := Apply(db, UpdateVersion(vid, v)); AsSubmitted(d) && VersionsOk(d.versions)
  {
    var d := Apply(db, UpdateVersion(vid, v));
    assert d.versions[vid] == v;
    forall x | x in d.versions && d.versions[x].status != Draft ensures Unedited(d, x) {
      if x != vid { assert Unedited(db, x); } else if db.versions[x].status != Draft { assert Unedited(db, x); }
    }
  }

  lemma UpdateVersionKeepsNumbers(db: DB, vid: VersionId, v: Version)
    requires Numbered(db) && LatestPresent(db) && Accepts(db, UpdateVersion(vid, v))
    ensures var d := Apply(db, UpdateVersion(vid, v)); Numbered(d) && LatestPresent(d)
  {
    var d := Apply(db, UpdateVersion(vid, v));
    forall x | x in d.versions && x.template in d.templates ensures HasLatest(d, x.template) {
      assert HasLatest(db, x.template);
    }
  }

  lemma UpdateVersionKeepsInv(db: DB, vid: VersionId, v: Version)
    requires Inv(db) && Accepts(db, UpdateVersion(vid, v)) && Safe(db, UpdateVersion(vid, v))
    ensures Inv(Apply(db, UpdateVersion(vid, v)))
  {
    UpdateVersionKeepsNames(db, vid, v);
    UpdateVersionKeepsContent(db, vid, v);
    UpdateVersionKeepsNumbers(db, vid, v);
  }

  lemma ObsoleteKeepsInv(db: DB, id: Key, keep: VersionId, now: int)
    requires Inv(db)
    ensures Inv(Apply(db, ObsoletePreviousPublished(id, keep, now)))
  {
    var d := Apply(db, ObsoletePreviousPublished(id, keep, now));
    forall x | x in d.versions && d.versions[x].status != Draft ensures Unedited(d, x) {
      assert Unedited(db, x);
    }
    forall x | x in d.versions && d.versions[x].status == Published ensures Named(d, x) {
      assert Named(db, x);
    }
    forall x | x in d.versions ensures VersionOk(d.versions[x]) {
      assert VersionOk(db.versions[x]);
    }
    forall t | t in d.templates && d.templates[t].publishedVersion.Some?
      ensures PublishedLink(d, t, d.templates[t].publishedVersion.value)
    {
      assert PublishedLink(db, t, db.templates[t].publishedVersion.value);
    }
  }

  lemma TemplateWriteKeepsLatest(db: DB, w: Write)
    requires w.InsertTemplate? || w.UpdateTemplate? || w.InsertVersion? || w.UpsertConfig?
    requires Inv(db) && Accepts(db, w) && Safe(db, w)
    ensures LatestPresent(Apply(db, w))
  {
    var d := Apply(db, w);
    forall vid | vid in d.versions && vid.template in d.templates ensures HasLatest(d, vid.template) {
      if vid in db.versions { assert HasLatest(db, vid.template); }
    }
  }

  lemma TemplateWriteKeepsNumbers(db: DB, w: Write)
    requires w.InsertTemplate? || w.UpdateTemplate? || w.InsertVersion? || w.UpsertConfig?
    requires Numbered(db) && Accepts(db, w) && Safe(db, w)
    ensures Numbered(Apply(db, w))
  {
  }

  lemma TemplateWriteKeepsInv(db: DB, w: Write)
    requires w.InsertTemplate? || w.UpdateTemplate? || w.InsertVersion? || w.UpsertConfig?
    requires Inv(db) && Accepts(db, w) && Safe(db, w)
    ensures Inv(Apply(db, w))
  {
    TemplateWriteKeepsLatest(db, w);
    TemplateWriteKeepsNumbers(db, w);
    TemplateWriteKeepsNames(db, w);
    TemplateWriteKeepsLinks(db, w);
    TemplateWriteKeepsContent(db, w);
  }

  lemma TemplateWriteKeepsContent(db: DB, w: Write)
    requires w.InsertTemplate? || w.UpdateTemplate? || w.InsertVersion? || w.UpsertConfig?
    requires Inv(db) && Accepts(db, w) && Safe(db, w)
    ensures var d := Apply(db, w); AsSubmitted(d) && VersionsOk(d.versions)
  {
    var d := Apply(db, w);
    forall x | x in d.versions && d.versions[x].status != Draft ensures Unedited(d, x) {
      assert Unedited(db, x);
    }
  }

  lemma TemplateWriteKeepsNames(db: DB, w: Write)
    requires w.InsertTemplate? || w.UpdateTemplate? || w.InsertVersion? || w.UpsertConfig?
    requires Inv(db) && Accepts(db, w) && Safe(db, w)
    ensures NamedIfPublished(Apply(db, w))
  {
    var d := Apply(db, w);
    forall x | x in d.versions && d.versions[x].status == Published ensures Named(d, x) {
      assert Named(db, x);
    }
  }

  lemma TemplateWriteKeepsLinks(db: DB, w: Write)
    requires w.InsertTemplate? || w.UpdateTemplate? || w.InsertVersion? || w.UpsertConfig?
    requires Inv(db) && Accepts(db, w) && Safe(db, w)
    ensures Linked(Apply(db, w))
  {
    var d := Apply(db, w);
    forall t | t in d.templates && d.templates[t].publishedVersion.Some?
      ensures PublishedLink(d, t, d.templates[t].publishedVersion.value)
    {
      if t in db.templates && d.templates[t].publishedVersion == db.templates[t].publishedVersion {
        assert PublishedLink(db, t, db.templates[t].publishedVersion.value);
      }
    }
  }

  lemma SafeKeepsInv(db: DB, w: Write)
    requires Inv(db) && Accepts(db, w) && Safe(db, w)
    ensures Inv(Apply(db, w))
  {
    match w
    case InsertTemplate(_, _) => TemplateWriteKeepsInv(db, w);
    case UpdateTemplate(_, _) => TemplateWriteKeepsInv(db, w);
    case InsertVersion(_, _) => TemplateWriteKeepsInv(db, w);
    case UpdateVersion(vid, v) => UpdateVersionKeepsInv(db, vid, v);
    case ObsoletePreviousPublished(id, keep, now) => ObsoleteKeepsInv(db, id, keep, now);
    case UpsertConfig(_, _) => TemplateWriteKeepsInv(db, w);
    case AppendAudit =>
  }

  /** Each write, in the state the ones before it leave, is safe. */
  ghost predicate SafeAll(db: DB, ws: Writes)
    decreases ws
  {
    ws == Nil || (Accepts(db, ws.first) ==> Safe(db, ws.first) && SafeAll(Apply(db, ws.first), ws.rest))
  }

  lemma {:induction false} SafeAllKeepsInv(db: DB, ws: Writes, n: nat)
    requires Inv(db) && SafeAll(db, ws)
    ensures Inv(Written(db, ws, n))
    decreases ws
  {
    if ws != Nil && n > 0 && Accepts(db, ws.first) {
      SafeKeepsInv(db, ws.first);
      SafeAllKeepsInv(Apply(db, ws.first), ws.rest, n - 1);
    }
  }

  // -------------------------------------------- every operation plans safe writes

  lemma SaveIsSafe(db: DB, vid: VersionId, v: Version)
    requires vid in db.versions && Safe(db, UpdateVersion(vid, v))
    ensures SafeAll(db, Save(vid, v))
  {
    var audit := Cons(AppendAudit, Nil);
    assert SafeAll(Apply(db, UpdateVersion(vid, v)), audit);
  }

  lemma ConsIsSafe(db: DB, w: Write, rest: Writes)
    requires Accepts(db, w) ==> Safe(db, w) && SafeAll(Apply(db, w), rest)
    ensures SafeAll(db, Cons(w, rest))
  {
  }

  lemma AuditIsSafe(db: DB)
    ensures SafeAll(db, Cons(AppendAudit, Nil))
  {
    assert SafeAll(db, Nil);
  }

  lemma CreateTemplateIsSafe(db: DB, op: Op)
    requires Inv(db) && op.CreateTemplate? && PlanOf(db, op).Perform?
    ensures SafeAll(db, PlanOf(db, op).writes)
  {
    var ws := PlanOf(db, op).writes;
    if Accepts(db, ws.first) {
      EmptySchemaIsValid();
      var d1 := Apply(db, ws.first);
      assert Safe(db, ws.first);
      var ws1 := ws.rest;
      if Accepts(d1, ws1.first) {
        var d2 := Apply(d1, ws1.first);
        AuditIsSafe(Apply(d2, ws1.rest.first));
        ConsIsSafe(d2, ws1.rest.first, ws1.rest.rest);
      }
      ConsIsSafe(d1, ws1.first, ws1.rest);
    }
    ConsIsSafe(db, ws.first, ws.rest);
  }

  /** The version a new one would be cloned from is there exactly when the latest one is. */
  lemma SourceIffLatest(db: DB, id: Key)
    requires Inv(db) && id in db.templates
    ensures SourceOf(id, db.templates[id]) in db.versions <==> HasLatest(db, id)
  {
    var published := db.templates[id].publishedVersion;
    if published.Some? {
      assert PublishedLink(db, id, published.value);
      assert HasLatest(db, published.value.template);
    }
  }

  lemma NextInsertIsSafe(db: DB, op: Op)
    requires Inv(db) && op.CreateNextVersion? && PlanOf(db, op).Perform? && Accepts(db, PlanOf(db, op).writes.first)
    ensures Safe(db, PlanOf(db, op).writes.first)
  {
    SourceIffLatest(db, op.id);
    assert VersionOk(db.versions[SourceOf(op.id, db.templates[op.id])]);
  }

  lemma BumpIsSafe(db: DB, id: Key, t: Template)
    requires Inv(db) && id in db.templates && t == db.templates[id].(latestVersion := t.latestVersion)
    requires t.latestVersion == db.templates[id].latestVersion + 1 && VersionId(id, t.latestVersion) in db.versions
    ensures Accepts(db, UpdateTemplate(id, t)) && Safe(db, UpdateTemplate(id, t))
  {
    if t.publishedVersion.Some? { assert PublishedLink(db, id, t.publishedVersion.value); }
    forall vid | vid in db.versions && vid.template == id && db.versions[vid].status == Published
      ensures t.publishedVersion == Some(vid)
    {
      assert Named(db, vid);
    }
  }

  lemma CreateNextVersionIsSafe(db: DB, op: Op)
    requires Inv(db) && op.CreateNextVersion? && PlanOf(db, op).Perform?
    ensures SafeAll(db, PlanOf(db, op).writes)
  {
    var v := NextPlan(db, op);
    var t := db.templates[op.id];
    var insert := InsertVersion(VersionId(op.id, t.latestVersion + 1), v);
    if Accepts(db, insert) {
      NextInsertIsSafe(db, op);
      TemplateWriteKeepsInv(db, insert);
      BumpsAreSafe(Apply(db, insert), op.id, t.(latestVersion := t.latestVersion + 1));
    }
    ConsIsSafe(db, insert, NextWrites(op.id, t, v).rest);
  }

  lemma BumpsAreSafe(db: DB, id: Key, t: Template)
    requires Inv(db) && id in db.templates && t == db.templates[id].(latestVersion := t.latestVersion)
    requires t.latestVersion == db.templates[id].latestVersion + 1 && VersionId(id, t.latestVersion) in db.versions
    ensures SafeAll(db, Cons(UpdateTemplate(id, t), Cons(AppendAudit, Nil)))
  {
    BumpIsSafe(db, id, t);
    AuditIsSafe(Apply(db, UpdateTemplate(id, t)));
    ConsIsSafe(db, UpdateTemplate(id, t), Cons(AppendAudit, Nil));
  }

  lemma EditIsSafe(db: DB, op: Op)
    requires Inv(db) && PlanOf(db, op).Perform?
    requires op.UpdateSchemas? || op.CommitAutosave? || op.SubmitForReview? || op.Review?
    ensures SafeAll(db, PlanOf(db, op).writes)
  {
    var v := SavePlan(db, op);
    EditedRowIsSafe(db, op, v);
    SaveIsSafe(db, op.vid, v);
  }

  lemma EditedRowIsSafe(db: DB, op: Op, v: Version)
    requires Inv(db) && (op.UpdateSchemas? || op.CommitAutosave? || op.SubmitForReview? || op.Review?)
    requires PlanOf(db, op) == Perform(Save(op.vid, v))
    ensures op.vid in db.versions && Safe(db, UpdateVersion(op.vid, v))
  {
    match op
    case SubmitForReview(_, _, _) => SubmissionIsSafe(db, op, v);
    case Review(_, _, _, _, _, _) => ReviewIsSafe(db, op, v);
    case UpdateSchemas(_, _, _, _, _) => SchemaEditIsSafe(db, op, v);
    case CommitAutosave(_, _, _, _) => AutosaveIsSafe(db, op, v);
  }

  lemma SchemaEditIsSafe(db: DB, op: Op, v: Version)
    requires Inv(db) && op.UpdateSchemas? && PlanOf(db, op) == Perform(Save(op.vid, v))
    ensures op.vid in db.versions && Safe(db, UpdateVersion(op.vid, v))
  {
    assert VersionOk(db.versions[op.vid]);
  }

  lemma AutosaveIsSafe(db: DB, op: Op, v: Version)
    requires Inv(db) && op.CommitAutosave? && PlanOf(db, op) == Perform(Save(op.vid, v))
    ensures op.vid in db.versions && Safe(db, UpdateVersion(op.vid, v))
  {
    assert VersionOk(db.versions[op.vid]);
  }

  lemma SubmissionIsSafe(db: DB, op: Op, v: Version)
    requires Inv(db) && op.SubmitForReview? && PlanOf(db, op) == Perform(Save(op.vid, v))
    ensures op.vid in db.versions && Safe(db, UpdateVersion(op.vid, v))
  {
    assert VersionOk(db.versions[op.vid]);
  }

  lemma ReviewIsSafe(db: DB, op: Op, v: Version)
    requires Inv(db) && op.Review? && PlanOf(db, op) == Perform(Save(op.vid, v))
    ensures op.vid in db.versions && Safe(db, UpdateVersion(op.vid, v))
  {
    assert VersionOk(db.versions[op.vid]);
  }

  /** Once the others are retired, the version being published is the only one that can be. */
  lemma RetiringSparesOwn(db: DB, vid: VersionId, now: int)
    requires Inv(db) && vid in db.versions
    ensures var d := Apply(db, ObsoletePreviousPublished(vid.template, vid, now));
            && Inv(d) && vid in d.versions && d.versions[vid] == db.versions[vid] && d.templates == db.templates
            && forall x :: x in d.versions && x.template == vid.template && d.versions[x].status == Published ==> x == vid
  {
    ObsoleteKeepsInv(db, vid.template, vid, now);
    var d := Apply(db, ObsoletePreviousPublished(vid.template, vid, now));
    forall x | x in d.versions && x.template == vid.template && d.versions[x].status == Published ensures x == vid {
      assert Superseded(x, db.versions[x], vid.template, vid) || x == vid;
    }
  }

  lemma PointerIsSafe(db: DB, vid: VersionId, t: Template, v: Version)
    requires Inv(db) && vid in db.versions && vid.template in db.templates
    requires t == db.templates[vid.template].(publishedVersion := Some(vid))
    requires forall x :: x in db.versions && x.template == vid.template && db.versions[x].status == Published ==> x == vid
    requires v.author == db.versions[vid].author && VersionOk(v) && v.content == db.versions[vid].content
    requires db.versions[vid].status != Draft
    ensures SafeAll(db, Cons(UpdateTemplate(vid.template, t), Save(vid, v)))
  {
    assert Safe(db, UpdateTemplate(vid.template, t));
    if Accepts(db, UpdateTemplate(vid.template, t)) {
      var d := Apply(db, UpdateTemplate(vid.template, t));
      assert d.versions[vid] == db.versions[vid] && Named(d, vid);
      SaveIsSafe(d, vid, v);
    }
    ConsIsSafe(db, UpdateTemplate(vid.template, t), Save(vid, v));
  }

  lemma SignedIsOk(db: DB, op: Op)
    requires Inv(db) && op.Approve? && op.accept && PlanOf(db, op).Perform?
    ensures op.vid in db.versions && db.versions[op.vid].status != Draft
    ensures var v := Signed(db.versions[op.vid], op.actor, op.now);
            VersionOk(v) && v.author == db.versions[op.vid].author && v.content == db.versions[op.vid].content
  {
    assert VersionOk(db.versions[op.vid]);
  }

  /** The three writes of a publication: others retired, the template pointed here, the version
      published. In this order no intermediate state has two published versions. */
  lemma PublishIsSafe(db: DB, op: Op)
    requires Inv(db) && op.Approve? && op.accept && PlanOf(db, op).Perform?
    ensures SafeAll(db, PlanOf(db, op).writes)
  {
    var vid := op.vid;
    PublishPlan(db, op);
    SignedIsOk(db, op);
    RetiringSparesOwn(db, vid, op.now);
    var retire := ObsoletePreviousPublished(vid.template, vid, op.now);
    var t := db.templates[vid.template].(publishedVersion := Some(vid));
    PointerIsSafe(Apply(db, retire), vid, t, Signed(db.versions[vid], op.actor, op.now));
    ConsIsSafe(db, retire, PlanOf(db, op).writes.rest);
  }

  lemma SendingBackIsSafe(db: DB, op: Op)
    requires Inv(db) && op.Approve? && !op.accept && PlanOf(db, op).Perform?
    ensures op.vid in db.versions && PlanOf(db, op).writes == Save(op.vid, SentBack(db.versions[op.vid]))
    ensures Safe(db, UpdateVersion(op.vid, SentBack(db.versions[op.vid])))
  {
    assert VersionOk(db.versions[op.vid]);
  }

  lemma ApproveIsSafe(db: DB, op: Op)
    requires Inv(db) && op.Approve? && PlanOf(db, op).Perform?
    ensures SafeAll(db, PlanOf(db, op).writes)
  {
    if op.accept {
      PublishIsSafe(db, op);
    } else {
      SendingBackIsSafe(db, op);
      SaveIsSafe(db, op.vid, SentBack(db.versions[op.vid]));
    }
  }

  lemma AdminIsSafe(db: DB, op: Op)
    requires Inv(db) && PlanOf(db, op).Perform? && (op.ArchiveTemplate? || op.ConfigureApproval?)
    ensures SafeAll(db, PlanOf(db, op).writes)
  {
    var ws := PlanOf(db, op).writes;
    if ws != Nil {
      forall vid | vid in db.versions && db.versions[vid].status == Published ensures Named(db, vid) {}
      if db.templates[op.id].publishedVersion.Some? {
        assert PublishedLink(db, op.id, db.templates[op.id].publishedVersion.value);
      }
      if Accepts(db, ws.first) { AuditIsSafe(Apply(db, ws.first)); }
      ConsIsSafe(db, ws.first, ws.rest);
    }
  }

  lemma PlanIsSafe(db: DB, op: Op)
    requires Inv(db) && PlanOf(db, op).Perform?
    ensures SafeAll(db, PlanOf(db, op).writes)
  {
    match op
    case CreateTemplate(_, _, _, _, _, _) => CreateTemplateIsSafe(db, op);
    case CreateNextVersion(_, _, _) => CreateNextVersionIsSafe(db, op);
    case UpdateSchemas(_, _, _, _, _) => EditIsSafe(db, op);
    case CommitAutosave(_, _, _, _) => EditIsSafe(db, op);
    case SubmitForReview(_, _, _) => EditIsSafe(db, op);
    case Review(_, _, _, _, _, _) => EditIsSafe(db, op);
    case Approve(_, _, _, _, _, _) => ApproveIsSafe(db, op);
    case ArchiveTemplate(_, _, _) => AdminIsSafe(db, op);
    case ConfigureApproval(_, _, _, _, _) => AdminIsSafe(db, op);
  }

  lemma StepKeepsInv(db: DB, op: Op, n: nat)
    requires Inv(db)
    ensures Inv(After(db, op, n))
  {
    if PlanOf(db, op).Perform? {
      PlanIsSafe(db, op);
      SafeAllKeepsInv(db, PlanOf(db, op).writes, n);
    }
  }

  const EMPTY := DB(map[], map[], map[], map[])

  /** Every state of every sequential run, failures at any repository call included. */
  lemma {:induction false} RunKeepsInv(calls: seq<Call>)
    ensures Inv(Run(EMPTY, calls))
  {
    if calls != [] {
      var last := calls[|calls| - 1];
      RunKeepsInv(calls[..|calls| - 1]);
      StepKeepsInv(Run(EMPTY, calls[..|calls| - 1]), last.op, last.n);
    }
  }

  // ---------------------------------------------------------------- theorems

  /** A template never has two published versions. */
  lemma AtMostOnePublished(calls: seq<Call>, a: VersionId, b: VersionId)
    requires a in Run(EMPTY, calls).versions && b in Run(EMPTY, calls).versions && a.template == b.template
    requires Run(EMPTY, calls).versions[a].status == Published && Run(EMPTY, calls).versions[b].status == Published
    ensures a == b
  {
    RunKeepsInv(calls);
    assert Named(Run(EMPTY, calls), a) && Named(Run(EMPTY, calls), b);
  }

  /** What stands published, now or formerly, is what was submitted, and passed four eyes, six
      when a reviewer role was pending. */
  lemma PublishedAsSubmittedAndSigned(calls: seq<Call>, vid: VersionId)
    requires vid in Run(EMPTY, calls).versions && Run(EMPTY, calls).versions[vid].status in {Published, Obsolete}
    ensures var db := Run(EMPTY, calls);
            var v := db.versions[vid];
            && vid in db.submitted && v.content == db.submitted[vid]
            && v.approver.Some? && v.approver.value != v.author
            && (v.pendingReviewerRole.Some? ==>
                  v.reviewer.Some? && v.reviewer.value != v.author && v.reviewer.value != v.approver.value)
            && ValidSchema(v.content.schema) && OptionsFit(v.content.schema)
  {
    RunKeepsInv(calls);
    var db := Run(EMPTY, calls);
    assert Unedited(db, vid) && VersionOk(db.versions[vid]);
  }

  // ------------------------------------------------------------ writes one by one

  lemma OneWrite(db: DB, w: Write, rest: Writes, n: nat)
    requires Accepts(db, w)
    ensures n == 0 ==> Written(db, Cons(w, rest), n) == db && !AllWritten(db, Cons(w, rest), n)
    ensures n > 0 ==> Written(db, Cons(w, rest), n) == Written(Apply(db, w), rest, n - 1)
    ensures n > 0 ==> (AllWritten(db, Cons(w, rest), n) <==> AllWritten(Apply(db, w), rest, n - 1))
  {
  }

  lemma LastAudit(db: DB, n: nat)
    ensures Written(db, Cons(AppendAudit, Nil), n) == db
    ensures AllWritten(db, Cons(AppendAudit, Nil), n) <==> n > 0
  {
    if n > 0 {
      OneWrite(db, AppendAudit, Nil, n);
    }
  }

  function PublishWrites(vid: VersionId, t: Template, v: Version, now: int): Writes {
    Cons(ObsoletePreviousPublished(vid.template, vid, now), Cons(UpdateTemplate(vid.template, t), Save(vid, v)))
  }

  lemma PublishPlan(db: DB, op: Op)
    requires op.Approve? && op.accept && PlanOf(db, op).Perform?
    ensures op.vid in db.versions && op.vid.template in db.templates && db.versions[op.vid].status in {InReview, Approved}
    ensures PlanOf(db, op).writes
            == PublishWrites(op.vid, db.templates[op.vid.template].(publishedVersion := Some(op.vid)),
                             Signed(db.versions[op.vid], op.actor, op.now), op.now)
  {
  }

  lemma PublishWriteStages(db: DB, vid: VersionId, t: Template, v: Version, now: int, n: nat)
      returns (d1: DB, d2: DB, d3: DB)
    requires vid in db.versions && vid.template in db.templates
    requires t == db.templates[vid.template].(publishedVersion := Some(vid))
    ensures d1 == Apply(db, ObsoletePreviousPublished(vid.template, vid, now))
    ensures d2.versions == d1.versions && d2.templates == d1.templates[vid.template := t]
    ensures vid in d2.versions && d3.templates == d2.templates && d3.versions == d2.versions[vid := Stored(d2.versions[vid], v)]
    ensures Written(db, PublishWrites(vid, t, v, now), n) == if n == 0 then db else if n == 1 then d1 else if n == 2 then d2 else d3
    ensures AllWritten(db, PublishWrites(vid, t, v, now), n) <==> n >= 4
  {
    var audit := Cons(AppendAudit, Nil);
    d1 := Apply(db, ObsoletePreviousPublished(vid.template, vid, now));
    d2 := Apply(d1, UpdateTemplate(vid.template, t));
    d3 := Apply(d2, UpdateVersion(vid, v));
    OneWrite(db, ObsoletePreviousPublished(vid.template, vid, now), Cons(UpdateTemplate(vid.template, t), Save(vid, v)), n);
    if n >= 1 { OneWrite(d1, UpdateTemplate(vid.template, t), Save(vid, v), n - 1); }
    if n >= 2 { OneWrite(d2, UpdateVersion(vid, v), audit, n - 2); }
    if n >= 3 { LastAudit(d3, n - 3); }
  }

  /** The states a publication goes through, call by call. */
  lemma PublishStages(db: DB, op: Op, n: nat) returns (d1: DB, d2: DB, d3: DB)
    requires op.Approve? && op.accept && PlanOf(db, op).Perform?
    ensures op.vid in db.versions && op.vid.template in db.templates && db.versions[op.vid].status in {InReview, Approved}
    ensures d1 == Apply(db, ObsoletePreviousPublished(op.vid.template, op.vid, op.now))
    ensures var t := db.templates[op.vid.template].(publishedVersion := Some(op.vid));
            d2.versions == d1.versions && d2.templates == d1.templates[op.vid.template := t]
    ensures op.vid in d2.versions && d3.templates == d2.templates
    ensures d3.versions == d2.versions[op.vid := Stored(d2.versions[op.vid], Signed(db.versions[op.vid], op.actor, op.now))]
    ensures After(db, op, n) == if n == 0 then db else if n == 1 then d1 else if n == 2 then d2 else d3
    ensures OutcomeOf(db, op, n) == Done <==> n >= 4
  {
    PublishPlan(db, op);
    d1, d2, d3 := PublishWriteStages(db, op.vid, db.templates[op.vid.template].(publishedVersion := Some(op.vid)),
                                     Signed(db.versions[op.vid], op.actor, op.now), op.now, n);
  }

  lemma OnlyPublished(versions: map<VersionId, Version>, after: map<VersionId, Version>, vid: VersionId, v: Version)
    requires forall x :: x in versions && x.template == vid.template && versions[x].status == Published ==> x == vid
    requires after == versions[vid := v] && v.status == Published
    ensures forall x :: x in after && x.template == vid.template ==> (after[x].status == Published <==> x == vid)
  {
  }

  /** An accepted approval whose calls all succeed leaves exactly the version it names published. */
  lemma ApprovedIsThePublished(db: DB, op: Op, n: nat)
    requires Inv(db) && op.Approve? && op.accept && OutcomeOf(db, op, n) == Done
    ensures var d := After(db, op, n);
            && op.vid.template in d.templates && d.templates[op.vid.template].publishedVersion == Some(op.vid)
            && forall x :: x in d.versions && x.template == op.vid.template ==>
                 (d.versions[x].status == Published <==> x == op.vid)
  {
    var d1, d2, d3 := PublishStages(db, op, n);
    RetiringSparesOwn(db, op.vid, op.now);
    OnlyPublished(d1.versions, d3.versions, op.vid, d3.versions[op.vid]);
  }

  // ------------------------------------------- does PublishedVersionID name a published one?

  /** PublishedVersionID names a version that is published. */
  ghost predicate NamesPublished(db: DB, id: Key) {
    && id in db.templates && db.templates[id].publishedVersion.Some?
    && db.templates[id].publishedVersion.value in db.versions
    && db.versions[db.templates[id].publishedVersion.value].status == Published
  }

  /** It names a published version or none. */
  ghost predicate WellNamed(db: DB, id: Key) {
    id in db.templates ==> db.templates[id].publishedVersion.None? || NamesPublished(db, id)
  }

  /** When it names no published version, no version of the template is published. */
  lemma UnnamedMeansNone(db: DB, id: Key)
    requires Inv(db) && !NamesPublished(db, id)
    ensures forall x :: x in db.versions && x.template == id ==> db.versions[x].status != Published
  {
    forall x | x in db.versions && x.template == id ensures db.versions[x].status != Published {
      assert db.versions[x].status == Published ==> Named(db, x);
    }
  }

  lemma UnnamedAfterMeansNone(db: DB, op: Op, n: nat, id: Key)
    requires Inv(db)
    ensures !NamesPublished(After(db, op, n), id) ==>
              forall x :: x in After(db, op, n).versions && x.template == id ==>
                After(db, op, n).versions[x].status != Published
  {
    StepKeepsInv(db, op, n);
    if !NamesPublished(After(db, op, n), id) { UnnamedMeansNone(After(db, op, n), id); }
  }

  lemma NonePublishedNoneNamed(db: DB, id: Key)
    requires forall x :: x in db.versions && x.template == id ==> db.versions[x].status != Published
    requires id in db.templates && db.templates[id].publishedVersion.Some? ==>
               db.templates[id].publishedVersion.value.template == id
    ensures !NamesPublished(db, id)
  {
  }

  /** What the template names after each call of a publication. */
  lemma PublicationNames(db: DB, op: Op, n: nat)
    requires Inv(db) && op.Approve? && op.accept && PlanOf(db, op).Perform?
    ensures op.vid.template in db.templates && op.vid.template in After(db, op, n).templates
    ensures After(db, op, n).templates[op.vid.template].publishedVersion
            == if n < 2 then db.templates[op.vid.template].publishedVersion else Some(op.vid)
    ensures n == 1 || n == 2 ==>
              forall x :: x in After(db, op, n).versions && x.template == op.vid.template ==>
                After(db, op, n).versions[x].status != Published
    ensures n >= 3 ==> op.vid in After(db, op, n).versions && After(db, op, n).versions[op.vid].status == Published
  {
    var d1, d2, d3 := PublishStages(db, op, n);
    RetiringLeavesNone(db, op.vid, op.now);
  }

  /** After an accepted approval that was stopped after `n` calls, the template names a published
      version exactly when nothing was written and it did before, or all three rows were. */
  lemma ApprovalNamesPublishedIff(db: DB, op: Op, n: nat)
    requires Inv(db) && op.Approve? && op.accept && PlanOf(db, op).Perform?
    ensures NamesPublished(After(db, op, n), op.vid.template)
            <==> (n == 0 && NamesPublished(db, op.vid.template)) || n >= 3
    ensures n == 1 || n == 2 ==>
              forall x :: x in After(db, op, n).versions && x.template == op.vid.template ==>
                After(db, op, n).versions[x].status != Published
  {
    PublicationNames(db, op, n);
    if db.templates[op.vid.template].publishedVersion.Some? {
      assert PublishedLink(db, op.vid.template, db.templates[op.vid.template].publishedVersion.value);
    }
    if n == 1 || n == 2 { NonePublishedNoneNamed(After(db, op, n), op.vid.template); }
  }

  lemma RetiringLeavesNone(db: DB, keep: VersionId, now: int)
    requires keep in db.versions && db.versions[keep].status in {InReview, Approved}
    ensures var d := Apply(db, ObsoletePreviousPublished(keep.template, keep, now));
            && d.versions[keep] == db.versions[keep]
            && forall x :: x in d.versions && x.template == keep.template ==> d.versions[x].status != Published
  {
    forall x | x in db.versions && x.template == keep.template && !Superseded(x, db.versions[x], keep.template, keep)
      ensures db.versions[x].status != Published
    {
    }
  }

  /** Operations that save one version row. */
  predicate Saves(op: Op) {
    op.UpdateSchemas? || op.CommitAutosave? || op.SubmitForReview? || op.Review? || (op.Approve? && !op.accept)
  }

  lemma SavePlan(db: DB, op: Op) returns (v: Version)
    requires Saves(op) && PlanOf(db, op).Perform?
    ensures op.vid in db.versions && db.versions[op.vid].status in {Draft, InReview, Approved}
    ensures PlanOf(db, op) == Perform(Save(op.vid, v)) && v.status in {Draft, InReview, Approved}
  {
    v := PlanOf(db, op).writes.first.v;
  }

  /** Writes that touch neither the name nor the named version's being published. */
  ghost predicate KeepsNaming(ws: Writes, id: Key, name: Option<VersionId>, published: bool)
    decreases ws
  {
    ws == Nil || (&& (match ws.first
                      case InsertTemplate(x, _) => x != id
                      case UpdateTemplate(x, t) => x == id ==> t.publishedVersion == name
                      case InsertVersion(_, _) => true
                      case UpdateVersion(vid, v) => Some(vid) == name ==> !published && v.status != Published
                      case ObsoletePreviousPublished(x, _, _) => x != id
                      case UpsertConfig(_, _) => true
                      case AppendAudit => true)
                  && KeepsNaming(ws.rest, id, name, published))
  }

  ghost predicate NameIs(db: DB, id: Key, name: Option<VersionId>, published: bool) {
    && id in db.templates && db.templates[id].publishedVersion == name
    && (name.Some? ==> name.value in db.versions && name.value.template == id
                       && (db.versions[name.value].status == Published <==> published))
  }

  lemma {:induction false} NamingKept(db: DB, ws: Writes, n: nat, id: Key, name: Option<VersionId>, published: bool)
    requires NameIs(db, id, name, published) && KeepsNaming(ws, id, name, published)
    ensures NameIs(Written(db, ws, n), id, name, published)
    decreases ws
  {
    if ws != Nil && n > 0 && Accepts(db, ws.first) {
      assert NameIs(Apply(db, ws.first), id, name, published);
      NamingKept(Apply(db, ws.first), ws.rest, n - 1, id, name, published);
    }
  }

  predicate Publishes(op: Op, id: Key) {
    op.Approve? && op.accept && op.vid.template == id
  }

  lemma SaveKeepsNaming(vid: VersionId, v: Version, id: Key, name: Option<VersionId>, published: bool)
    requires Some(vid) == name ==> !published && v.status != Published
    ensures KeepsNaming(Save(vid, v), id, name, published)
  {
    assert KeepsNaming(Cons(AppendAudit, Nil), id, name, published);
  }

  lemma PublishKeepsNaming(vid: VersionId, t: Template, v: Version, now: int, id: Key, name: Option<VersionId>, published: bool)
    requires vid.template != id && (name.Some? ==> name.value.template == id)
    ensures KeepsNaming(PublishWrites(vid, t, v, now), id, name, published)
  {
    SaveKeepsNaming(vid, v, id, name, published);
    assert KeepsNaming(Cons(UpdateTemplate(vid.template, t), Save(vid, v)), id, name, published);
  }

  lemma NoRenaming(db: DB, op: Op, id: Key, name: Option<VersionId>, published: bool)
    requires id in db.templates && db.templates[id].publishedVersion == name && PlanOf(db, op).Perform?
    requires op.CreateTemplate? || op.CreateNextVersion? || op.ArchiveTemplate? || op.ConfigureApproval?
    requires op.CreateTemplate? ==> op.id != id
    ensures KeepsNaming(PlanOf(db, op).writes, id, name, published)
  {
    var ws := PlanOf(db, op).writes;
    assert KeepsNaming(Cons(AppendAudit, Nil), id, name, published);
    if op.CreateNextVersion? { assert KeepsNaming(ws.rest, id, name, published); }
    if op.CreateTemplate? { assert KeepsNaming(ws.rest.rest, id, name, published) && KeepsNaming(ws.rest, id, name, published); }
  }

  lemma PlanKeepsNaming(db: DB, op: Op, id: Key, name: Option<VersionId>, published: bool)
    requires Inv(db) && NameIs(db, id, name, published) && PlanOf(db, op).Perform? && !Publishes(op, id)
    requires op.CreateTemplate? ==> op.id != id
    ensures KeepsNaming(PlanOf(db, op).writes, id, name, published)
  {
    if Saves(op) {
      var v := SavePlan(db, op);
      SaveKeepsNaming(op.vid, v, id, name, published);
    } else if op.Approve? {
      PublishPlan(db, op);
      var t := db.templates[op.vid.template].(publishedVersion := Some(op.vid));
      PublishKeepsNaming(op.vid, t, Signed(db.versions[op.vid], op.actor, op.now), op.now, id, name, published);
    } else {
      NoRenaming(db, op, id, name, published);
    }
  }

  /** For every operation and every point of failure: a template names a published version or none
      afterwards exactly as before, but for its own publication, which is off between its first
      call (if it retired one) and its third.  One that names none published has none. */
  lemma WellNamedAfterIff(db: DB, op: Op, n: nat, id: Key)
    requires Inv(db) && id in db.templates
    ensures WellNamed(After(db, op, n), id) <==>
      if Publishes(op, id) && PlanOf(db, op).Perform? && n > 0
      then n >= 3 || (n == 1 && db.templates[id].publishedVersion.None?)
      else WellNamed(db, id)
    ensures !NamesPublished(After(db, op, n), id) ==>
              forall x :: x in After(db, op, n).versions && x.template == id ==>
                After(db, op, n).versions[x].status != Published
  {
    UnnamedAfterMeansNone(db, op, n, id);
    if Publishes(op, id) && PlanOf(db, op).Perform? {
      PublicationWellNamed(db, op, n);
    } else {
      OthersKeepNaming(db, op, n, id);
    }
  }

  lemma PublicationWellNamed(db: DB, op: Op, n: nat)
    requires Inv(db) && op.Approve? && op.accept && PlanOf(db, op).Perform?
    ensures WellNamed(After(db, op, n), op.vid.template) <==>
      if n > 0 then n >= 3 || (n == 1 && db.templates[op.vid.template].publishedVersion.None?)
      else WellNamed(db, op.vid.template)
  {
    ApprovalNamesPublishedIff(db, op, n);
    PublicationNames(db, op, n);
  }

  /** Creating a template that is there writes nothing. */
  lemma RepeatedCreation(db: DB, op: Op, n: nat)
    requires op.CreateTemplate? && op.id in db.templates
    ensures After(db, op, n) == db
  {
  }

  lemma OthersKeepName(db: DB, op: Op, n: nat, id: Key, name: Option<VersionId>, published: bool)
    requires Inv(db) && NameIs(db, id, name, published) && !(Publishes(op, id) && PlanOf(db, op).Perform?)
    ensures NameIs(After(db, op, n), id, name, published)
  {
    if op.CreateTemplate? && op.id == id {
      RepeatedCreation(db, op, n);
    } else if PlanOf(db, op).Perform? {
      PlanKeepsNaming(db, op, id, name, published);
      NamingKept(db, PlanOf(db, op).writes, n, id, name, published);
    }
  }

  lemma OthersKeepNaming(db: DB, op: Op, n: nat, id: Key)
    requires Inv(db) && id in db.templates && !(Publishes(op, id) && PlanOf(db, op).Perform?)
    ensures WellNamed(After(db, op, n), id) <==> WellNamed(db, id)
  {
    var name := db.templates[id].publishedVersion;
    if name.Some? { assert PublishedLink(db, id, name.value); }
    OthersKeepName(db, op, n, id, name, NamesPublished(db, id));
  }

  // ---------------------------------------------------- what never changes back

  /** The only thing that can still happen to a published version is that it is retired. */
  ghost predicate SameButRetired(a: Version, b: Version) {
    b == a || (a.status == Published && b.status == Obsolete && b == a.(status := Obsolete, obsoletedAt := b.obsoletedAt))
  }

  ghost predicate Spares(ws: Writes, vid: VersionId)
    decreases ws
  {
    ws == Nil || ((ws.first.UpdateVersion? ==> ws.first.vid != vid) && Spares(ws.rest, vid))
  }

  lemma {:induction false} SparedKeeps(db: DB, ws: Writes, n: nat, vid: VersionId)
    requires vid in db.versions && Spares(ws, vid)
    ensures vid in Written(db, ws, n).versions && SameButRetired(db.versions[vid], Written(db, ws, n).versions[vid])
    decreases ws
  {
    if ws != Nil && n > 0 && Accepts(db, ws.first) {
      var d := Apply(db, ws.first);
      assert SameButRetired(db.versions[vid], d.versions[vid]);
      SparedKeeps(d, ws.rest, n - 1, vid);
    }
  }

  lemma SaveSpares(saved: VersionId, v: Version, vid: VersionId)
    requires saved != vid
    ensures Spares(Save(saved, v), vid)
  {
    assert Spares(Cons(AppendAudit, Nil), vid);
  }

  lemma NoSave(db: DB, op: Op, vid: VersionId)
    requires PlanOf(db, op).Perform?
    requires op.CreateTemplate? || op.CreateNextVersion? || op.ArchiveTemplate? || op.ConfigureApproval?
    ensures Spares(PlanOf(db, op).writes, vid)
  {
    var ws := PlanOf(db, op).writes;
    assert Spares(Cons(AppendAudit, Nil), vid);
    if op.CreateNextVersion? { assert Spares(ws.rest, vid); }
    if op.CreateTemplate? { assert Spares(ws.rest.rest, vid) && Spares(ws.rest, vid); }
  }

  lemma PlanSpares(db: DB, op: Op, vid: VersionId)
    requires Inv(db) && vid in db.versions && db.versions[vid].status in {Published, Obsolete}
    requires PlanOf(db, op).Perform?
    ensures Spares(PlanOf(db, op).writes, vid)
  {
    if Saves(op) {
      var v := SavePlan(db, op);
      SaveSpares(op.vid, v, vid);
    } else if op.Approve? {
      PublishPlan(db, op);
      SaveSpares(op.vid, Signed(db.versions[op.vid], op.actor, op.now), vid);
      assert Spares(PlanOf(db, op).writes.rest, vid);
    } else {
      NoSave(db, op, vid);
    }
  }

  lemma StepSparesPublished(db: DB, op: Op, n: nat, vid: VersionId)
    requires Inv(db) && vid in db.versions && db.versions[vid].status in {Published, Obsolete}
    ensures vid in After(db, op, n).versions && SameButRetired(db.versions[vid], After(db, op, n).versions[vid])
  {
    if PlanOf(db, op).Perform? {
      PlanSpares(db, op, vid);
      SparedKeeps(db, PlanOf(db, op).writes, n, vid);
    }
  }

  /** Once published, a version's content and signatures stay what they are on every later run. */
  lemma {:induction false} PublishedIsFrozen(db: DB, calls: seq<Call>, vid: VersionId)
    requires Inv(db) && vid in db.versions && db.versions[vid].status in {Published, Obsolete}
    ensures Inv(Run(db, calls)) && vid in Run(db, calls).versions
    ensures SameButRetired(db.versions[vid], Run(db, calls).versions[vid])
  {
    if calls != [] {
      var last, before := calls[|calls| - 1], calls[..|calls| - 1];
      PublishedIsFrozen(db, before, vid);
      StepKeepsInv(Run(db, before), last.op, last.n);
      StepSparesPublished(Run(db, before), last.op, last.n, vid);
    }
  }

  // ----------------------------------------------------- can a next version be made?

  /** What CreateNextVersion needs of the rows: the template is the tenant's and not archived, it
      has a version to clone, and the next number is free. */
  ghost predicate CanGrow(db: DB, tenant: string, id: Key) {
    && HasTemplate(db, tenant, id) && db.templates[id].archivedAt.None?
    && SourceOf(id, db.templates[id]) in db.versions
    && VersionId(id, db.templates[id].latestVersion + 1) !in db.versions
  }

  function NextWrites(id: Key, t: Template, v: Version): Writes {
    Cons(InsertVersion(VersionId(id, t.latestVersion + 1), v),
         Cons(UpdateTemplate(id, t.(latestVersion := t.latestVersion + 1)), Cons(AppendAudit, Nil)))
  }

  lemma NextPlan(db: DB, op: Op) returns (v: Version)
    requires op.CreateNextVersion? && PlanOf(db, op).Perform?
    ensures HasTemplate(db, op.tenant, op.id) && db.templates[op.id].archivedAt.None?
    ensures SourceOf(op.id, db.templates[op.id]) in db.versions
    ensures PlanOf(db, op).writes == NextWrites(op.id, db.templates[op.id], v)
  {
    v := FreshVersion(db.versions[SourceOf(op.id, db.templates[op.id])].content.(hash := ""), op.actor, Config(None, ""));
  }

  lemma NextWriteStages(db: DB, id: Key, t: Template, v: Version, n: nat) returns (d1: DB, d2: DB)
    requires Linked(db) && id in db.templates && t == db.templates[id] && VersionId(id, t.latestVersion + 1) !in db.versions
    ensures d1.templates == db.templates && d1.versions.Keys == db.versions.Keys + {VersionId(id, t.latestVersion + 1)}
    ensures d2.versions == d1.versions && d2.templates == db.templates[id := t.(latestVersion := t.latestVersion + 1)]
    ensures Written(db, NextWrites(id, t, v), n) == if n == 0 then db else if n == 1 then d1 else d2
    ensures AllWritten(db, NextWrites(id, t, v), n) <==> n >= 3
  {
    var bump := UpdateTemplate(id, t.(latestVersion := t.latestVersion + 1));
    if t.publishedVersion.Some? { assert PublishedLink(db, id, t.publishedVersion.value); }
    var insert := InsertVersion(VersionId(id, t.latestVersion + 1), v);
    d1 := Apply(db, insert);
    d2 := Apply(d1, bump);
    OneWrite(db, insert, Cons(bump, Cons(AppendAudit, Nil)), n);
    if n >= 1 { OneWrite(d1, bump, Cons(AppendAudit, Nil), n - 1); }
    if n >= 2 { LastAudit(d2, n - 2); }
  }

  /** The states CreateNextVersion goes through; a taken number stops it before the first. */
  lemma NextVersionStages(db: DB, op: Op, n: nat) returns (d1: DB, d2: DB)
    requires Linked(db) && op.CreateNextVersion? && CanGrow(db, op.tenant, op.id)
    ensures var t := db.templates[op.id];
            && d1.templates == db.templates && d1.versions.Keys == db.versions.Keys + {VersionId(op.id, t.latestVersion + 1)}
            && d2.versions == d1.versions && d2.templates == db.templates[op.id := t.(latestVersion := t.latestVersion + 1)]
    ensures After(db, op, n) == if n == 0 then db else if n == 1 then d1 else d2
    ensures OutcomeOf(db, op, n) == Done <==> n >= 3
  {
    var v := NextPlan(db, op);
    d1, d2 := NextWriteStages(db, op.id, db.templates[op.id], v, n);
  }

  lemma NextVersionStops(db: DB, op: Op, n: nat)
    requires op.CreateNextVersion? && !CanGrow(db, op.tenant, op.id)
    ensures After(db, op, n) == db && OutcomeOf(db, op, n) != Done
  {
    if PlanOf(db, op).Perform? {
      var v := NextPlan(db, op);
    }
  }

  /** CreateNextVersion is done exactly when the template can grow and all three calls succeed. */
  lemma NextVersionDoneIff(db: DB, tenant: string, id: Key, actor: string, n: nat)
    requires Inv(db)
    ensures OutcomeOf(db, CreateNextVersion(tenant, id, actor), n) == Done <==> CanGrow(db, tenant, id) && n >= 3
  {
    var op := CreateNextVersion(tenant, id, actor);
    if CanGrow(db, tenant, id) {
      var d1, d2 := NextVersionStages(db, op, n);
    } else {
      NextVersionStops(db, op, n);
    }
  }

  /** Writes that leave a template's tenant, age, latest number and set of versions alone. */
  ghost predicate KeepsGrowth(ws: Writes, id: Key, t: Template)
    decreases ws
  {
    ws == Nil || (&& (match ws.first
                      case InsertTemplate(x, _) => x != id
                      case UpdateTemplate(x, u) => x == id ==> SameGrowth(u, t)
                      case InsertVersion(vid, _) => vid.template != id
                      case _ => true)
                  && KeepsGrowth(ws.rest, id, t))
  }

  predicate SameGrowth(t: Template, u: Template) {
    t.tenant == u.tenant && t.archivedAt == u.archivedAt && t.latestVersion == u.latestVersion
  }

  ghost predicate GrowthIs(db: DB, id: Key, t: Template, versions: set<VersionId>) {
    && id in db.templates && SameGrowth(db.templates[id], t)
    && forall vid: VersionId :: vid.template == id ==> (vid in db.versions <==> vid in versions)
  }

  lemma {:induction false} GrowthKept(db: DB, ws: Writes, n: nat, id: Key, t: Template, versions: set<VersionId>)
    requires GrowthIs(db, id, t, versions) && KeepsGrowth(ws, id, t)
    ensures GrowthIs(Written(db, ws, n), id, t, versions)
    decreases ws
  {
    if ws != Nil && n > 0 && Accepts(db, ws.first) {
      assert GrowthIs(Apply(db, ws.first), id, t, versions);
      GrowthKept(Apply(db, ws.first), ws.rest, n - 1, id, t, versions);
    }
  }

  predicate Archives(db: DB, op: Op, id: Key) {
    op.ArchiveTemplate? && op.id == id && HasTemplate(db, op.tenant, id)
  }

  predicate MakesNext(op: Op, id: Key) {
    op.CreateNextVersion? && op.id == id
  }

  lemma PlanKeepsGrowth(db: DB, op: Op, id: Key)
    requires id in db.templates && PlanOf(db, op).Perform? && !Archives(db, op, id) && !MakesNext(op, id)
    requires op.CreateTemplate? ==> op.id != id
    ensures KeepsGrowth(PlanOf(db, op).writes, id, db.templates[id])
  {
    var ws, t := PlanOf(db, op).writes, db.templates[id];
    var audit := Cons(AppendAudit, Nil);
    assert KeepsGrowth(Nil, id, t) && KeepsGrowth(audit, id, t);
    if Saves(op) {
      var v := SavePlan(db, op);
    } else if op.Approve? {
      PublishPlan(db, op);
      assert KeepsGrowth(ws.rest.rest, id, t) && KeepsGrowth(ws.rest, id, t);
    } else if op.CreateNextVersion? {
      var v := NextPlan(db, op);
      assert KeepsGrowth(ws.rest, id, t);
    } else if op.CreateTemplate? {
      assert KeepsGrowth(ws.rest.rest, id, t) && KeepsGrowth(ws.rest, id, t);
    }
  }

  lemma OthersKeepGrowth(db: DB, op: Op, n: nat, id: Key)
    requires id in db.templates && !Archives(db, op, id) && !MakesNext(op, id)
    ensures GrowthIs(After(db, op, n), id, db.templates[id], db.versions.Keys)
  {
    if op.CreateTemplate? && op.id == id {
      RepeatedCreation(db, op, n);
    } else if PlanOf(db, op).Perform? {
      PlanKeepsGrowth(db, op, id);
      GrowthKept(db, PlanOf(db, op).writes, n, id, db.templates[id], db.versions.Keys);
    }
  }

  /** Growth in terms of the latest version alone. */
  ghost predicate Growable(db: DB, tenant: string, id: Key) {
    && HasTemplate(db, tenant, id) && db.templates[id].archivedAt.None? && HasLatest(db, id)
    && VersionId(id, db.templates[id].latestVersion + 1) !in db.versions
  }

  lemma CanGrowIff(db: DB, tenant: string, id: Key)
    requires Inv(db)
    ensures CanGrow(db, tenant, id) <==> Growable(db, tenant, id)
  {
    if id in db.templates { SourceIffLatest(db, id); }
  }

  lemma GrowthAfterNext(db: DB, op: Op, n: nat, tenant: string)
    requires Linked(db) && op.CreateNextVersion? && op.id in db.templates
    requires CanGrow(db, op.tenant, op.id) <==> Growable(db, op.tenant, op.id)
    requires VersionId(op.id, db.templates[op.id].latestVersion + 2) !in db.versions
    ensures Growable(After(db, op, n), tenant, op.id) <==> Growable(db, tenant, op.id) && !(op.tenant == tenant && n == 1)
  {
    if CanGrow(db, op.tenant, op.id) {
      var d1, d2 := NextVersionStages(db, op, n);
    } else {
      NextVersionStops(db, op, n);
    }
  }

  lemma GrowthSame(db: DB, d: DB, tenant: string, id: Key)
    requires id in db.templates && GrowthIs(d, id, db.templates[id], db.versions.Keys)
    ensures Growable(d, tenant, id) <==> Growable(db, tenant, id)
  {
  }

  lemma GrowthAfterArchive(db: DB, op: Op, n: nat, tenant: string)
    requires Inv(db) && op.ArchiveTemplate? && HasTemplate(db, op.tenant, op.id)
    ensures Growable(After(db, op, n), tenant, op.id) <==> Growable(db, tenant, op.id) && !(op.tenant == tenant && n >= 1)
  {
    ArchiveStages(db, op, n);
  }

  lemma NumberBeyond(db: DB, id: Key)
    requires Inv(db) && id in db.templates
    ensures VersionId(id, db.templates[id].latestVersion + 2) !in db.versions
  {
  }

  /** For every operation and every point of failure: an existing template can grow afterwards
      exactly when it could before, was not archived, and did not lose the bump of its own
      CreateNextVersion. */
  lemma CanGrowAfterIff(db: DB, op: Op, n: nat, tenant: string, id: Key)
    requires Inv(db) && id in db.templates
    ensures CanGrow(After(db, op, n), tenant, id) <==>
      CanGrow(db, tenant, id) && !(op.ArchiveTemplate? && op.tenant == tenant && op.id == id && n >= 1)
      && !(op.CreateNextVersion? && op.tenant == tenant && op.id == id && n == 1)
  {
    StepKeepsInv(db, op, n);
    CanGrowIff(db, tenant, id);
    CanGrowIff(After(db, op, n), tenant, id);
    if MakesNext(op, id) {
      CanGrowIff(db, op.tenant, id);
      NumberBeyond(db, id);
      GrowthAfterNext(db, op, n, tenant);
    } else if Archives(db, op, id) {
      GrowthAfterArchive(db, op, n, tenant);
    } else {
      OthersKeepGrowth(db, op, n, id);
      GrowthSame(db, After(db, op, n), tenant, id);
    }
  }

  lemma ArchiveStages(db: DB, op: Op, n: nat)
    requires Inv(db) && op.ArchiveTemplate? && HasTemplate(db, op.tenant, op.id)
    ensures After(db, op, n).versions == db.versions && op.id in After(db, op, n).templates
    ensures After(db, op, n).templates[op.id] ==
      if n == 0 || db.templates[op.id].archivedAt.Some? then db.templates[op.id] else db.templates[op.id].(archivedAt := Some(op.now))
  {
    var ws := PlanOf(db, op).writes;
    if ws != Nil && n > 0 {
      var t := db.templates[op.id];
      if t.publishedVersion.Some? { assert PublishedLink(db, op.id, t.publishedVersion.value); }
      assert Written(db, ws, n) == Written(Apply(db, ws.first), ws.rest, n - 1) == Apply(db, ws.first);
    }
  }

  /** A template that cannot grow never can again, whatever follows. */
  lemma {:induction false} NeverGrowsAgain(db: DB, calls: seq<Call>, tenant: string, id: Key)
    requires Inv(db) && id in db.templates && !CanGrow(db, tenant, id)
    ensures Inv(Run(db, calls)) && id in Run(db, calls).templates && !CanGrow(Run(db, calls), tenant, id)
  {
    if calls != [] {
      var last, before := calls[|calls| - 1], calls[..|calls| - 1];
      NeverGrowsAgain(db, before, tenant, id);
      StepKeepsInv(Run(db, before), last.op, last.n);
      TemplatesStay(Run(db, before), last.op, last.n, id);
      CanGrowAfterIff(Run(db, before), last.op, last.n, tenant, id);
    }
  }

  lemma TemplatesStay(db: DB, op: Op, n: nat, id: Key)
    requires id in db.templates
    ensures id in After(db, op, n).templates
  {
    if PlanOf(db, op).Perform? { WritesKeepTemplates(db, PlanOf(db, op).writes, n, id); }
  }

  lemma {:induction false} WritesKeepTemplates(db: DB, ws: Writes, n: nat, id: Key)
    requires id in db.templates
    ensures id in Written(db, ws, n).templates
    decreases ws
  {
    if ws != Nil && n > 0 && Accepts(db, ws.first) { WritesKeepTemplates(Apply(db, ws.first), ws.rest, n - 1, id); }
  }

  lemma CreationPlan(db: DB, op: Op) returns (t: Template, v: Version, rest: Writes)
    requires op.CreateTemplate? && PlanOf(db, op).Perform?
    ensures PlanOf(db, op).writes == Cons(InsertTemplate(op.id, t), Cons(InsertVersion(VersionId(op.id, 1), v), rest))
    ensures t.tenant == op.tenant && t.archivedAt.None? && t.latestVersion == 1 && KeepsGrowth(rest, op.id, t)
  {
    t, v := PlanOf(db, op).writes.first.t, PlanOf(db, op).writes.rest.first.v;
    rest := PlanOf(db, op).writes.rest.rest;
    assert KeepsGrowth(rest.rest.rest, op.id, t) && KeepsGrowth(rest.rest, op.id, t);
  }

  lemma CreationGrows(db: DB, id: Key, t: Template, v: Version, rest: Writes, n: nat)
    requires forall vid :: vid in db.versions ==> vid.template != id
    requires t.archivedAt.None? && t.latestVersion == 1 && KeepsGrowth(rest, id, t)
    requires Accepts(db, InsertTemplate(id, t))
    ensures var ws := Cons(InsertTemplate(id, t), Cons(InsertVersion(VersionId(id, 1), v), rest));
            Growable(Written(db, ws, n), t.tenant, id) <==> n >= 2 || (n == 0 && Growable(db, t.tenant, id))
  {
    var insert := InsertVersion(VersionId(id, 1), v);
    OneWrite(db, InsertTemplate(id, t), Cons(insert, rest), n);
    if n >= 1 {
      var d1 := Apply(db, InsertTemplate(id, t));
      OneWrite(d1, insert, rest, n - 1);
      if n >= 2 {
        var d2 := Apply(d1, insert);
        GrowthKept(d2, rest, n - 2, id, t, d2.versions.Keys);
      }
    }
  }

  /** A template comes into being able to grow exactly when its first version was written too. */
  lemma NewTemplateGrowsIff(db: DB, op: Op, n: nat)
    requires Inv(db) && op.CreateTemplate? && op.id !in db.templates
    ensures CanGrow(After(db, op, n), op.tenant, op.id) <==> PlanOf(db, op).Perform? && n >= 2
  {
    StepKeepsInv(db, op, n);
    CanGrowIff(After(db, op, n), op.tenant, op.id);
    if PlanOf(db, op).Perform? {
      var t, v, rest := CreationPlan(db, op);
      if Accepts(db, InsertTemplate(op.id, t)) {
        CreationGrows(db, op.id, t, v, rest, n);
      }
    }
  }

  /** The next version's number is taken although latest_version does not say so. */
  ghost predicate Stuck(db: DB, id: Key) {
    id in db.templates && VersionId(id, db.templates[id].latestVersion + 1) in db.versions
  }

  ghost predicate SameLatest(db: DB, d: DB, id: Key) {
    id in db.templates && id in d.templates && d.templates[id].latestVersion == db.templates[id].latestVersion
  }

  lemma StuckSame(db: DB, d: DB, id: Key)
    requires id in db.templates && GrowthIs(d, id, db.templates[id], db.versions.Keys)
    ensures (Stuck(d, id) <==> Stuck(db, id)) && SameLatest(db, d, id)
  {
  }

  lemma StuckAfterOthers(db: DB, op: Op, n: nat, id: Key)
    requires Inv(db) && id in db.templates && !MakesNext(op, id)
    ensures Stuck(After(db, op, n), id) <==> Stuck(db, id)
    ensures SameLatest(db, After(db, op, n), id)
  {
    if Archives(db, op, id) {
      ArchiveStages(db, op, n);
    } else {
      OthersKeepGrowth(db, op, n, id);
      StuckSame(db, After(db, op, n), id);
    }
  }

  /** A template gets stuck exactly by losing the bump right after the insert. */
  lemma StuckAfterIff(db: DB, op: Op, n: nat, id: Key)
    requires Inv(db) && id in db.templates
    ensures Stuck(After(db, op, n), id) <==> Stuck(db, id) || (MakesNext(op, id) && PlanOf(db, op).Perform? && n == 1)
    ensures Stuck(db, id) ==> SameLatest(db, After(db, op, n), id)
    ensures Stuck(db, id) && MakesNext(op, id) ==> After(db, op, n) == db && OutcomeOf(db, op, n) != Done
  {
    if MakesNext(op, id) {
      NumberBeyond(db, id);
      StuckAfterNext(db, op, n);
    } else {
      StuckAfterOthers(db, op, n, id);
    }
  }

  lemma StuckAfterNext(db: DB, op: Op, n: nat)
    requires Linked(db) && op.CreateNextVersion? && op.id in db.templates
    requires VersionId(op.id, db.templates[op.id].latestVersion + 2) !in db.versions
    ensures Stuck(After(db, op, n), op.id) <==> Stuck(db, op.id) || (PlanOf(db, op).Perform? && n == 1)
    ensures Stuck(db, op.id) ==> After(db, op, n) == db && OutcomeOf(db, op, n) != Done
  {
    if CanGrow(db, op.tenant, op.id) {
      var d1, d2 := NextVersionStages(db, op, n);
    } else {
      NextVersionStops(db, op, n);
      if PlanOf(db, op).Perform? { var v := NextPlan(db, op); }
    }
  }
}
