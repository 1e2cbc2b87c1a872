/** The first document workflow: Transition changes approval and status rows one call at a time
    and undoes them when the audit record cannot be written. */
module Workflow {
  import opened Prelude

  type Id = string

  datatype Status = Draft | InReview | Approved | Published | Archived

  datatype Decision = Pending | Accepted | Rejected

  datatype Approval = Approval(
    id: Id, document: Id, requestedBy: string, assignedReviewer: string, decisionBy: string, status: Decision,
    requestReason: string, decisionReason: string, requestedAt: int, decidedAt: Option<int>)

  // Approvals stand in the order they were requested, the latest last.
  datatype State = State(status: map<Id, Status>, approvals: seq<Approval>)

  /** Strings come trimmed; `now` and `newId` are what the clock and the generator give. */
  datatype Command = Command(document: Id, to: Status, actor: string, assignedReviewer: string, reason: string, now: int, newId: Id)

  /** Which of the calls that write go through. */
  datatype Calls = Calls(approval: bool, status: bool, audit: bool, undoStatus: bool, undoApproval: bool)

  datatype Error = InvalidCommand | NotFound | InvalidTransition | ApprovalNotFound | ReviewerDenied | StoreFailed | AuditFailed

  predicate CanTransition(from: Status, to: Status) {
    match from
    case Draft => to == InReview
    case InReview => to == Approved || to == Draft
    case Approved => to == Published || to == Archived
    case Published => to == Archived
    case Archived => false
  }

  // ------------------------------------------------------------- approval rows

  /** The latest approval of a document: ORDER BY requested_at DESC LIMIT 1. */
  function Latest(approvals: seq<Approval>, document: Id): (i: Option<nat>)
    ensures i.Some? ==> i.value < |approvals| && approvals[i.value].document == document
  {
    if approvals == [] then None
    else if approvals[|approvals| - 1].document == document then Some(|approvals| - 1)
    else Latest(approvals[..|approvals| - 1], document)
  }

  function FindId(approvals: seq<Approval>, id: Id): (i: Option<nat>)
    ensures i.Some? ==> i.value < |approvals| && approvals[i.value].id == id
  {
    if approvals == [] then None
    else if approvals[|approvals| - 1].id == id then Some(|approvals| - 1)
    else FindId(approvals[..|approvals| - 1], id)
  }

  ghost predicate UniqueIds(approvals: seq<Approval>) {
    forall i, j :: 0 <= i < j < |approvals| ==> approvals[i].id != approvals[j].id
  }

  lemma {:induction false} FindIdIs(approvals: seq<Approval>, i: nat)
    requires UniqueIds(approvals) && i < |approvals|
    ensures FindId(approvals, approvals[i].id) == Some(i)
  {
    if i < |approvals| - 1 {
      assert approvals[i].id != approvals[|approvals| - 1].id;
      FindIdIs(approvals[..|approvals| - 1], i);
    }
  }

  lemma {:induction false} LatestChanged(approvals: seq<Approval>, i: nat, a: Approval, document: Id)
    requires i < |approvals| && a.document == approvals[i].document
    ensures Latest(approvals[i := a], document) == Latest(approvals, document)
  {
    var n := |approvals| - 1;
    if i < n {
      assert approvals[i := a][..n] == approvals[..n][i := a];
      LatestChanged(approvals[..n], i, a, document);
    } else {
      assert approvals[i := a][..n] == approvals[..n];
    }
  }

  function Decided(a: Approval, verdict: Decision, actor: string, reason: string, now: int): Approval {
    a.(status := verdict, decisionBy := actor, decisionReason := reason, decidedAt := Some(now))
  }

  function Requested(c: Command): Approval {
    Approval(c.newId, c.document, c.actor, c.assignedReviewer, "", Pending, c.reason, "", c.now, None)
  }

  // ------------------------------------------------------------------ one call

  /** Refusals before anything is written; `fold` is the case folding EqualFold compares by. */
  function Refusal(fold: string -> string, s: State, c: Command): Option<Error> {
    if c.document == "" || c.actor == "" then Some(InvalidCommand)
    else if c.document !in s.status then Some(NotFound)
    else
      var from := s.status[c.document];
      if !CanTransition(from, c.to) then Some(InvalidTransition)
      else if from == Draft then (if c.assignedReviewer == "" then Some(InvalidCommand) else None)
      else if from == InReview then
        var latest := Latest(s.approvals, c.document);
        if latest.None? || s.approvals[latest.value].status != Pending then Some(ApprovalNotFound)
        else if fold(s.approvals[latest.value].assignedReviewer) != fold(c.actor) then Some(ReviewerDenied)
        else None
      else None
  }

  predicate TouchesApproval(from: Status) {
    from == Draft || from == InReview
  }

  /** The approval rows once the first write is done. */
  function ApprovalsAfter(s: State, c: Command): seq<Approval>
    requires c.document in s.status
  {
    match s.status[c.document]
    case Draft => s.approvals + [Requested(c)]
    case InReview =>
      var latest := Latest(s.approvals, c.document);
      if latest.None? then s.approvals
      else
        var a := s.approvals[latest.value];
        s.approvals[latest.value := Decided(a, if c.to == Draft then Rejected else Accepted, c.actor, c.reason, c.now)]
    case _ => s.approvals
  }

  predicate ApprovalWritten(s: State, c: Command, calls: Calls)
    requires c.document in s.status
  {
    TouchesApproval(s.status[c.document]) ==>
      calls.approval && (s.status[c.document] == Draft ==> FindId(s.approvals, c.newId).None?)
  }

  /** The outcome and the rows left behind, for every combination of calls that go through. */
  function Step(fold: string -> string, s: State, c: Command, calls: Calls): (State, Option<Error>) {
    var refusal := Refusal(fold, s, c);
    if refusal.Some? then (s, refusal)
    else if !ApprovalWritten(s, c, calls) then (s, Some(StoreFailed))
    else
      var approvals := ApprovalsAfter(s, c);
      if !calls.status then (s.(approvals := approvals), Some(StoreFailed))
      else
        var moved := s.status[c.document := c.to];
        if calls.audit then (State(moved, approvals), None)
        else (State(if calls.undoStatus then s.status else moved,
                    if calls.undoApproval then s.approvals else approvals), Some(AuditFailed))
  }

  class Service {
    const fold: string -> string
    var status: map<Id, Status>
    var approvals: seq<Approval>

    constructor (fold: string -> string, status: map<Id, Status>)
      ensures this.fold == fold && this.status == status && approvals == []
    {
      this.fold, this.status, approvals := fold, status, [];
    }

    function Now(): State
      reads this
    {
      State(status, approvals)
    }

    method UpdateDecision(id: Id, verdict: Decision, actor: string, reason: string, now: int)
      modifies this
      ensures status == old(status)
      ensures var i := FindId(old(approvals), id);
              approvals == if i.None? then old(approvals)
                           else old(approvals)[i.value := Decided(old(approvals)[i.value], verdict, actor, reason, now)]
    {
      var i := FindId(approvals, id);
      if i.Some? {
        approvals := approvals[i.value := Decided(approvals[i.value], verdict, actor, reason, now)];
      }
    }

    method SaveState(a: Approval)
      modifies this
      ensures status == old(status)
      ensures var i := FindId(old(approvals), a.id);
              approvals == if i.None? then old(approvals) else old(approvals)[i.value := a]
    {
      var i := FindId(approvals, a.id);
      if i.Some? { approvals := approvals[i.value := a]; }
    }

    method Delete(id: Id)
      modifies this
      ensures status == old(status)
      ensures var i := FindId(old(approvals), id);
              approvals == if i.None? then old(approvals) else old(approvals)[..i.value] + old(approvals)[i.value + 1..]
    {
      var i := FindId(approvals, id);
      if i.Some? { approvals := approvals[..i.value] + approvals[i.value + 1..]; }
    }

    method RollbackApproval(from: Status, approval: Option<Approval>, previousApproval: Option<Approval>, ok: bool)
      modifies this
      ensures status == old(status)
      ensures !ok || approval.None? ==> approvals == old(approvals)
      ensures ok && approval.Some? && previousApproval.Some? ==>
        var i := FindId(old(approvals), previousApproval.value.id);
        approvals == if i.None? then old(approvals) else old(approvals)[i.value := previousApproval.value]
      ensures ok && approval.Some? && previousApproval.None? && from == Draft && approval.value.status == Pending ==>
        var i := FindId(old(approvals), approval.value.id);
        approvals == if i.None? then old(approvals) else old(approvals)[..i.value] + old(approvals)[i.value + 1..]
    {
      if approval.None? || !ok { return; }
      if from == Draft && approval.value.status == Pending && previousApproval.None? {
        Delete(approval.value.id);
        return;
      }
      if previousApproval.Some? { SaveState(previousApproval.value); }
    }

    /** The first write of a transition that is not refused, and the approval as it was before. */
    method RecordApproval(c: Command, from: Status, ok: bool)
        returns (done: bool, approval: Option<Approval>, previousApproval: Option<Approval>)
      requires UniqueIds(approvals) && Refusal(fold, Now(), c).None? && from == status[c.document]
      modifies this
      ensures status == old(status) && done == ApprovalWritten(old(Now()), c, Calls(ok, true, true, true, true))
      ensures approvals == if done then ApprovalsAfter(old(Now()), c) else old(approvals)
      ensures done ==> Undoable(old(approvals), approvals, from, approval, previousApproval)
    {
      done, approval, previousApproval := true, None, None;
      ghost var before := approvals;
      if from == Draft && c.to == InReview {
        if !ok || FindId(approvals, c.newId).Some? { return false, None, None; }
        var requested := Approval(c.newId, c.document, c.actor, c.assignedReviewer, "", Pending, c.reason, "", c.now, None);
        approval := Some(requested);
        approvals := approvals + [requested];
        assert approvals[..|before|] + approvals[|before| + 1..] == before;
      } else if from == InReview && (c.to == Approved || c.to == Draft) {
        if !ok { return false, None, None; }
        var latest := Latest(approvals, c.document).value;
        var a := approvals[latest];
        previousApproval := Some(a);
        var verdict := if c.to == Draft then Rejected else Accepted;
        FindIdIs(approvals, latest);
        UpdateDecision(a.id, verdict, c.actor, c.reason, c.now);
        approval := Some(Decided(a, verdict, c.actor, c.reason, c.now));
        ChangedIds(before, latest, approval.value);
        FindIdIs(approvals, latest);
        assert approvals[latest := a] == before;
      }
    }

    method Transition(c: Command, calls: Calls) returns (err: Option<Error>)
      requires UniqueIds(approvals)
      modifies this
      ensures (Now(), err) == Step(fold, old(Now()), c, calls)
    {
      if c.document == "" || c.actor == "" { return Some(InvalidCommand); }
      if c.document !in status { return Some(NotFound); }
      var from := status[c.document];
      if !CanTransition(from, c.to) { return Some(InvalidTransition); }
      if from == Draft && c.to == InReview {
        if c.assignedReviewer == "" { return Some(InvalidCommand); }
      } else if from == InReview && (c.to == Approved || c.to == Draft) {
        var latest := Latest(approvals, c.document);
        if latest.None? || approvals[latest.value].status != Pending { return Some(ApprovalNotFound); }
        if fold(approvals[latest.value].assignedReviewer) != fold(c.actor) { return Some(ReviewerDenied); }
      }
      ghost var before := status;
      var done, approval, previousApproval := RecordApproval(c, from, calls.approval);
      if !done { return Some(StoreFailed); }
      if !calls.status { return Some(StoreFailed); }
      status := status[c.document := c.to];
      if !calls.audit {
        if calls.undoStatus { status := status[c.document := from]; }
        assert calls.undoStatus ==> status == before;
        RollbackApproval(from, approval, previousApproval, calls.undoApproval);
        return Some(AuditFailed);
      }
      err := None;
    }
  }

  /** What RollbackApproval will do to `now` gives `before` back. */
  ghost predicate Undoable(before: seq<Approval>, now: seq<Approval>, from: Status, approval: Option<Approval>, previous: Option<Approval>) {
    if approval.None? then now == before
    else if previous.Some? then
      var i := FindId(now, previous.value.id);
      i.Some? && now[i.value := previous.value] == before
    else
      var i := FindId(now, approval.value.id);
      from == Draft && approval.value.status == Pending && i.Some? && now[..i.value] + now[i.value + 1..] == before
  }

  lemma ChangedIds(approvals: seq<Approval>, i: nat, a: Approval)
    requires UniqueIds(approvals) && i < |approvals| && a.id == approvals[i].id
    ensures UniqueIds(approvals[i := a])
  {
  }

  // ------------------------------------------------------------ compensation

  /** A failed transition leaves every row as it was exactly when it did not fail between its two
      writes, and, if the audit record is what failed, both undo calls went through that were
      needed. */
  lemma FailureRestoresIff(fold: string -> string, s: State, c: Command, calls: Calls)
    requires Step(fold, s, c, calls).1.Some?
    ensures Step(fold, s, c, calls).0 == s <==>
      || Refusal(fold, s, c).Some?
      || !ApprovalWritten(s, c, calls)
      || (!calls.status && !TouchesApproval(s.status[c.document]))
      || (calls.status && calls.undoStatus && (calls.undoApproval || !TouchesApproval(s.status[c.document])))
  {
    if Refusal(fold, s, c).None? {
      var from := s.status[c.document];
      assert from != c.to;
      assert s.status[c.document := c.to] != s.status by {
        assert s.status[c.document := c.to][c.document] != s.status[c.document];
      }
      if from == Draft { assert |ApprovalsAfter(s, c)| == |s.approvals| + 1; }
      if from == InReview {
        var i := Latest(s.approvals, c.document).value;
        assert ApprovalsAfter(s, c)[i].status != s.approvals[i].status;
      }
    }
  }

  predicate OnlyAuditFails(calls: Calls) {
    calls.approval && calls.status && calls.undoStatus && calls.undoApproval
  }

  // -------------------------------------------------------------------- runs

  /** IN_REVIEW exactly when the latest approval is pending; beyond review, that approval was
      given by its assigned reviewer. */
  ghost predicate Consistent(fold: string -> string, s: State, document: Id)
    requires document in s.status
  {
    var latest := Latest(s.approvals, document);
    && (s.status[document] == InReview <==> latest.Some? && s.approvals[latest.value].status == Pending)
    && (s.status[document] in {Approved, Published, Archived} ==> latest.Some? && GivenByReviewer(fold, s.approvals[latest.value]))
  }

  ghost predicate GivenByReviewer(fold: string -> string, a: Approval) {
    a.status == Accepted && fold(a.decisionBy) == fold(a.assignedReviewer)
  }

  ghost predicate Inv(fold: string -> string, s: State) {
    UniqueIds(s.approvals) && forall d :: d in s.status ==> Consistent(fold, s, d)
  }

  lemma LatestAppended(approvals: seq<Approval>, a: Approval, document: Id)
    ensures Latest(approvals + [a], document)
            == if a.document == document then Some(|approvals|) else Latest(approvals, document)
  {
    assert (approvals + [a])[..|approvals|] == approvals;
  }

  lemma {:induction false} NotFoundIsFresh(approvals: seq<Approval>, id: Id)
    ensures FindId(approvals, id).None? <==> forall i :: 0 <= i < |approvals| ==> approvals[i].id != id
  {
    if approvals != [] && approvals[|approvals| - 1].id != id { NotFoundIsFresh(approvals[..|approvals| - 1], id); }
  }

  lemma StepKeepsInv(fold: string -> string, s: State, c: Command, calls: Calls)
    requires Inv(fold, s) && OnlyAuditFails(calls)
    ensures Inv(fold, Step(fold, s, c, calls).0)
  {
    if c.document in s.status { InvAfterIff(fold, s, c, calls); }
  }

  datatype Call = Call(command: Command, auditOk: bool)

  function Run(fold: string -> string, s: State, calls: seq<Call>): State {
    if calls == [] then s
    else
      var last := calls[|calls| - 1];
      Step(fold, Run(fold, s, calls[..|calls| - 1]), last.command, Calls(true, true, last.auditOk, true, true)).0
  }

  ghost predicate Fresh(s: State) {
    s.approvals == [] && forall d :: d in s.status ==> s.status[d] == Draft
  }

  /** On every run in which at most audit records fail to be written. */
  lemma {:induction false} RunIsConsistent(fold: string -> string, s: State, calls: seq<Call>)
    requires Fresh(s)
    ensures Inv(fold, Run(fold, s, calls))
  {
    if calls != [] {
      var last := calls[|calls| - 1];
      RunIsConsistent(fold, s, calls[..|calls| - 1]);
      StepKeepsInv(fold, Run(fold, s, calls[..|calls| - 1]), last.command, Calls(true, true, last.auditOk, true, true));
    }
  }

  // ------------------------------------------------------ when a write is lost

  /** Which calls of a transition that is not refused leave status and approval in step: all of
      its writes, or none, or both of them undone, or neither. */
  predicate InStep(s: State, c: Command, calls: Calls)
    requires c.document in s.status
  {
    || !ApprovalWritten(s, c, calls)
    || !TouchesApproval(s.status[c.document])
    || (calls.status && (calls.audit || calls.undoStatus == calls.undoApproval))
  }

  /** A document's latest approval: where it stands and what it says. */
  function LatestRow(approvals: seq<Approval>, document: Id): Option<Approval> {
    var i := Latest(approvals, document);
    if i.None? then None else Some(approvals[i.value])
  }

  ghost predicate Agrees(fold: string -> string, status: Status, latest: Option<Approval>) {
    && (status == InReview <==> latest.Some? && latest.value.status == Pending)
    && (status in {Approved, Published, Archived} ==> latest.Some? && GivenByReviewer(fold, latest.value))
  }

  lemma ConsistentIsAgrees(fold: string -> string, s: State, document: Id)
    requires document in s.status
    ensures Consistent(fold, s, document) <==> Agrees(fold, s.status[document], LatestRow(s.approvals, document))
  {
  }

  /** The first write touches the latest row of its own document and of no other. */
  lemma LatestAfter(fold: string -> string, s: State, c: Command, document: Id)
    requires Refusal(fold, s, c).None?
    ensures LatestRow(ApprovalsAfter(s, c), document)
            == if document != c.document then LatestRow(s.approvals, document)
               else match s.status[c.document]
                    case Draft => Some(Requested(c))
                    case InReview =>
                      var row := s.approvals[Latest(s.approvals, c.document).value];
                      Some(Decided(row, if c.to == Draft then Rejected else Accepted, c.actor, c.reason, c.now))
                    case _ => LatestRow(s.approvals, document)
  {
    match s.status[c.document]
    case Draft => LatestAppended(s.approvals, Requested(c), document);
    case InReview =>
      var i := Latest(s.approvals, c.document).value;
      LatestChanged(s.approvals, i, ApprovalsAfter(s, c)[i], document);
    case _ =>
  }

  lemma OthersStayConsistent(fold: string -> string, s: State, c: Command, calls: Calls, document: Id)
    requires Inv(fold, s) && document in s.status && (c.document != document || Refusal(fold, s, c).Some?)
    ensures Consistent(fold, Step(fold, s, c, calls).0, document)
  {
    ConsistentIsAgrees(fold, s, document);
    ConsistentIsAgrees(fold, Step(fold, s, c, calls).0, document);
    if Refusal(fold, s, c).None? { LatestAfter(fold, s, c, document); }
  }

  /** Whatever calls fail, a consistent document is consistent after a transition exactly when
      the transition was refused or its calls were in step. */
  lemma ConsistentAfterIff(fold: string -> string, s: State, c: Command, calls: Calls)
    requires Inv(fold, s) && c.document in s.status
    ensures Consistent(fold, Step(fold, s, c, calls).0, c.document)
            <==> Refusal(fold, s, c).Some? || InStep(s, c, calls)
  {
    ConsistentIsAgrees(fold, s, c.document);
    ConsistentIsAgrees(fold, Step(fold, s, c, calls).0, c.document);
    if Refusal(fold, s, c).None? { LatestAfter(fold, s, c, c.document); }
  }

  lemma StepKeepsUnique(fold: string -> string, s: State, c: Command, calls: Calls)
    requires UniqueIds(s.approvals)
    ensures UniqueIds(Step(fold, s, c, calls).0.approvals)
  {
    if Refusal(fold, s, c).None? && ApprovalWritten(s, c, calls) {
      match s.status[c.document]
      case Draft => NotFoundIsFresh(s.approvals, c.newId);
      case InReview =>
        var i := Latest(s.approvals, c.document).value;
        ChangedIds(s.approvals, i, ApprovalsAfter(s, c)[i]);
      case _ =>
    }
  }

  /** So the whole store stays consistent over one transition exactly under that condition. */
  lemma InvAfterIff(fold: string -> string, s: State, c: Command, calls: Calls)
    requires Inv(fold, s) && c.document in s.status
    ensures Inv(fold, Step(fold, s, c, calls).0) <==> Refusal(fold, s, c).Some? || InStep(s, c, calls)
  {
    ConsistentAfterIff(fold, s, c, calls);
    StepKeepsUnique(fold, s, c, calls);
    var t := Step(fold, s, c, calls).0;
    assert t.status.Keys == s.status.Keys;
    forall d | d in t.status && d != c.document ensures Consistent(fold, t, d) {
      OthersStayConsistent(fold, s, c, calls, d);
    }
  }

  /** In review without a pending latest approval: no transition is possible any more. */
  ghost predicate Stranded(s: State, document: Id) {
    document in s.status && s.status[document] == InReview
    && var latest := Latest(s.approvals, document); latest.Some? && s.approvals[latest.value].status != Pending
  }

  /** A decision strands its document exactly when its approval is written and stays, and its
      status is not or does not. */
  lemma DecisionStrandsIff(fold: string -> string, s: State, c: Command, calls: Calls)
    requires Refusal(fold, s, c).None? && s.status[c.document] == InReview
    ensures Stranded(Step(fold, s, c, calls).0, c.document)
            <==> calls.approval && (!calls.status || (!calls.audit && calls.undoStatus && !calls.undoApproval))
  {
    var i := Latest(s.approvals, c.document).value;
    LatestChanged(s.approvals, i, ApprovalsAfter(s, c)[i], c.document);
  }

  /** A draft is left with a pending approval exactly in the matching case of a submission. */
  lemma SubmissionOrphansIff(fold: string -> string, s: State, c: Command, calls: Calls)
    requires Inv(fold, s) && Refusal(fold, s, c).None? && s.status[c.document] == Draft
    ensures var t := Step(fold, s, c, calls).0;
            var latest := Latest(t.approvals, c.document);
            (t.status[c.document] == Draft && latest.Some? && t.approvals[latest.value].status == Pending)
            <==> ApprovalWritten(s, c, calls)
                 && (!calls.status || (!calls.audit && calls.undoStatus && !calls.undoApproval))
  {
    assert Consistent(fold, s, c.document);
    LatestAppended(s.approvals, Requested(c), c.document);
  }

  /** A stranded document stays so: every transition of it is refused, and none of another
      document touches it. */
  lemma StrandedForGood(fold: string -> string, s: State, c: Command, calls: Calls, document: Id)
    requires Stranded(s, document)
    ensures Stranded(Step(fold, s, c, calls).0, document)
    ensures c.document == document ==> Step(fold, s, c, calls).1.Some? && Step(fold, s, c, calls).0 == s
  {
    if c.document != document && Refusal(fold, s, c).None? {
      match s.status[c.document] {
        case Draft => LatestAppended(s.approvals, Requested(c), document);
        case InReview =>
          var i := Latest(s.approvals, c.document).value;
          LatestChanged(s.approvals, i, ApprovalsAfter(s, c)[i], document);
        case _ =>
      }
    }
  }
}
