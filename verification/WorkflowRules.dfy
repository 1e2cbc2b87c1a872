/** The workflow's table of moves, its guards and its writes, stated on the rows. */
module WorkflowRules {
  import opened Prelude
  import opened Workflow

  /** The latest approval of a document, by position. */
  ghost predicate IsLatest(s: State, i: int, document: Id) {
    && 0 <= i < |s.approvals| && s.approvals[i].document == document
    && forall j :: i < j < |s.approvals| ==> s.approvals[j].document != document
  }

  lemma {:induction false} LatestIs(approvals: seq<Approval>, document: Id)
    ensures Latest(approvals, document).None? <==> forall j :: 0 <= j < |approvals| ==> approvals[j].document != document
    ensures Latest(approvals, document).Some? ==>
      forall j :: Latest(approvals, document).value < j < |approvals| ==> approvals[j].document != document
  {
    if approvals != [] && approvals[|approvals| - 1].document != document {
      LatestIs(approvals[..|approvals| - 1], document);
    }
  }

  lemma LatestIff(s: State, i: int, document: Id)
    ensures IsLatest(s, i, document) <==> i >= 0 && Latest(s.approvals, document) == Some(i)
  {
    LatestIs(s.approvals, document);
  }

  /** The latest approval is pending, and the actor's but for case. */
  ghost predicate MayDecide(fold: string -> string, s: State, c: Command) {
    exists i :: && IsLatest(s, i, c.document) && s.approvals[i].status == Pending
                && fold(s.approvals[i].assignedReviewer) == fold(c.actor)
  }

  ghost predicate Move(from: Status, to: Status) {
    || (from == Draft && to == InReview)
    || (from == InReview && to == Approved)
    || (from == InReview && to == Draft)
    || (from == Approved && to == Published)
    || (from == Approved && to == Archived)
    || (from == Published && to == Archived)
  }

  /** A transition succeeds exactly for one of the six moves, with a reviewer named for a
      submission and the pending reviewer deciding a review, when all calls it needs go through. */
  lemma TransitionIff(fold: string -> string, s: State, c: Command, calls: Calls)
    ensures Step(fold, s, c, calls).1.None? <==>
      && c.document != "" && c.actor != "" && c.document in s.status
      && Move(s.status[c.document], c.to)
      && (s.status[c.document] == Draft ==>
            c.assignedReviewer != "" && calls.approval && forall j :: 0 <= j < |s.approvals| ==> s.approvals[j].id != c.newId)
      && (s.status[c.document] == InReview ==> MayDecide(fold, s, c) && calls.approval)
      && calls.status && calls.audit
  {
    NotFoundIsFresh(s.approvals, c.newId);
    DeciderIs(fold, s, c);
  }

  lemma DeciderIs(fold: string -> string, s: State, c: Command)
    ensures MayDecide(fold, s, c) <==>
      var latest := Latest(s.approvals, c.document);
      latest.Some? && s.approvals[latest.value].status == Pending
      && fold(s.approvals[latest.value].assignedReviewer) == fold(c.actor)
  {
    var latest := Latest(s.approvals, c.document);
    if latest.Some? { LatestIff(s, latest.value, c.document); }
    forall i | IsLatest(s, i, c.document) ensures latest == Some(i) { LatestIff(s, i, c.document); }
  }

  /** The errors in order; all but the last two come before any write. */
  lemma TransitionErrors(fold: string -> string, s: State, c: Command, calls: Calls)
    requires Step(fold, s, c, calls).1.Some?
    ensures Step(fold, s, c, calls).1.value ==
      if c.document == "" || c.actor == "" then InvalidCommand
      else if c.document !in s.status then NotFound
      else if !Move(s.status[c.document], c.to) then InvalidTransition
      else if s.status[c.document] == Draft && c.assignedReviewer == "" then InvalidCommand
      else if s.status[c.document] == InReview
              && !(exists i :: IsLatest(s, i, c.document) && s.approvals[i].status == Pending) then ApprovalNotFound
      else if s.status[c.document] == InReview && !MayDecide(fold, s, c) then ReviewerDenied
      else if calls.status && (s.status[c.document] == InReview ==> calls.approval)
              && (s.status[c.document] == Draft ==>
                    calls.approval && forall j :: 0 <= j < |s.approvals| ==> s.approvals[j].id != c.newId)
        then AuditFailed
      else StoreFailed
  {
    NotFoundIsFresh(s.approvals, c.newId);
    DeciderIs(fold, s, c);
    var latest := Latest(s.approvals, c.document);
    if latest.Some? { LatestIff(s, latest.value, c.document); }
    forall i | IsLatest(s, i, c.document) ensures latest == Some(i) { LatestIff(s, i, c.document); }
  }

  /** What a successful transition writes. */
  lemma TransitionWrites(fold: string -> string, s: State, c: Command, calls: Calls)
    requires Step(fold, s, c, calls).1.None?
    ensures var t := Step(fold, s, c, calls).0;
            && c.document in s.status && OnlyRow(s.status, t.status, c.document) && t.status[c.document] == c.to
            && (s.status[c.document] == Draft ==>
                  && |t.approvals| == |s.approvals| + 1 && t.approvals[..|s.approvals|] == s.approvals
                  && var a := t.approvals[|s.approvals|];
                     && a.id == c.newId && a.document == c.document && a.requestedBy == c.actor
                     && a.assignedReviewer == c.assignedReviewer && a.status == Pending && a.requestReason == c.reason
                     && a.requestedAt == c.now && a.decidedAt == None && a.decisionBy == "" && a.decisionReason == "")
            && (s.status[c.document] == InReview ==>
                  && |t.approvals| == |s.approvals|
                  && (forall j :: 0 <= j < |s.approvals| && !IsLatest(s, j, c.document) ==> t.approvals[j] == s.approvals[j])
                  && (forall j :: 0 <= j < |s.approvals| && IsLatest(s, j, c.document) ==>
                        && t.approvals[j].status == (if c.to == Approved then Accepted else Rejected)
                        && t.approvals[j].decisionBy == c.actor && t.approvals[j].decisionReason == c.reason
                        && t.approvals[j].decidedAt == Some(c.now)
                        && t.approvals[j] == s.approvals[j].(status := t.approvals[j].status, decisionBy := c.actor,
                                                            decisionReason := c.reason, decidedAt := Some(c.now))))
            && (s.status[c.document] != Draft && s.status[c.document] != InReview ==> t.approvals == s.approvals)
  {
    TransitionIff(fold, s, c, calls);
    if s.status[c.document] == InReview {
      var latest := Latest(s.approvals, c.document);
      DeciderIs(fold, s, c);
      forall i | 0 <= i < |s.approvals| ensures IsLatest(s, i, c.document) <==> i == latest.value {
        LatestIff(s, i, c.document);
      }
    }
  }

  /** Whatever calls fail, only the document named can change, and only by a move of the table. */
  lemma OnlyMoves(fold: string -> string, s: State, c: Command, calls: Calls, document: Id)
    requires document in s.status
    ensures var t := Step(fold, s, c, calls).0;
            && document in t.status
            && (t.status[document] != s.status[document] ==>
                  document == c.document && t.status[document] == c.to && Move(s.status[document], c.to))
  {
  }

  /** Any transitions, and any calls of each that go through. */
  function RunAny(fold: string -> string, s: State, steps: seq<(Command, Calls)>): State {
    if steps == [] then s
    else
      var (c, calls) := steps[|steps| - 1];
      Step(fold, RunAny(fold, s, steps[..|steps| - 1]), c, calls).0
  }

  /** An archived document stays archived on every run, whatever calls fail. */
  lemma {:induction false} ArchivedStays(fold: string -> string, s: State, steps: seq<(Command, Calls)>, document: Id)
    requires document in s.status && s.status[document] == Archived
    ensures var t := RunAny(fold, s, steps); document in t.status && t.status[document] == Archived
  {
    if steps != [] {
      var (c, calls) := steps[|steps| - 1];
      ArchivedStays(fold, s, steps[..|steps| - 1], document);
      OnlyMoves(fold, RunAny(fold, s, steps[..|steps| - 1]), c, calls, document);
    }
  }
}
