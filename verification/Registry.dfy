/** Controlled documents and their automatic numbering: one counter per tenant and profile, taken
    inside the transaction that inserts the document. The counter row stays locked until that
    transaction ends, so creations for one profile run one after another. */
module Registry {
  import opened Prelude

  datatype Scope = Scope(tenant: string, profile: string)

  datatype Status = Active | Obsolete | Superseded

  // A document's id is its position; rows are never deleted and codes never change.
  datatype Document = Document(scope: Scope, code: string, sequence: Option<int>, status: Status)

  datatype DB = DB(counters: map<Scope, int>, documents: seq<Document>)

  datatype Error =
    | ReferenceInvalid | ReasonRequired | CodeTaken | OverrideInvalid | OutOfRange | CheckViolation | CommitFailed
    | NotFound | NotActive

  // -------------------------------------------------------------------- codes

  function Digit(n: int): char
    requires 0 <= n < 10
  {
    ['0', '1', '2', '3', '4', '5', '6', '7', '8', '9'][n]
  }

  function Decimal(n: nat): string {
    if n < 10 then [Digit(n)] else Decimal(n / 10) + [Digit(n % 10)]
  }

  /** fmt.Sprintf("%s-%02d", strings.ToUpper(profile), seq); case mapping is a given function. */
  function AutoCode(upper: string -> string, profile: string, n: nat): string {
    upper(profile) + "-" + (if n < 10 then "0" + Decimal(n) else Decimal(n))
  }

  function ValueOfDigit(c: char): int {
    if '0' <= c <= '9' then c as int - '0' as int else 0
  }

  function Value(s: string): int {
    if s == [] then 0 else Value(s[..|s| - 1]) * 10 + ValueOfDigit(s[|s| - 1])
  }

  lemma {:induction false} DecimalReadsBack(n: nat)
    ensures Value(Decimal(n)) == n && Value("0" + Decimal(n)) == n
  {
    var s := Decimal(n);
    if n < 10 {
      assert s[..0] == [] && ("0" + s)[..1] == "0" && "0"[..0] == [];
      assert Value("0") == 0;
    } else {
      DecimalReadsBack(n / 10);
      assert s[..|s| - 1] == Decimal(n / 10);
      assert ("0" + s)[..|s|] == "0" + Decimal(n / 10);
    }
  }

  /** Within a profile different numbers have different codes. */
  lemma AutoCodeTellsNumber(upper: string -> string, profile: string, a: nat, b: nat)
    ensures AutoCode(upper, profile, a) == AutoCode(upper, profile, b) <==> a == b
  {
    DecimalReadsBack(a);
    DecimalReadsBack(b);
    var lead := |upper(profile)| + 1;
    assert AutoCode(upper, profile, a)[lead..] == if a < 10 then "0" + Decimal(a) else Decimal(a);
    assert AutoCode(upper, profile, b)[lead..] == if b < 10 then "0" + Decimal(b) else Decimal(b);
  }

  // --------------------------------------------------------------- operations

  const MAX_INT := 0x7FFF_FFFF

  /** `referencesOk`: profile and area exist and are active; a manual code comes trimmed, with the
      verdict on its reason; `overrideOk`: the template override, if any, resolves; `commitOk`: the
      store accepts the insert and commit. */
  datatype Op =
    | Create(scope: Scope, referencesOk: bool, manual: Option<Manual>, overrideOk: bool, commitOk: bool)
    | ChangeStatus(tenant: string, id: int, next: Status)

  datatype Manual = Manual(code: string, reasonOk: bool)

  predicate CodeExists(documents: seq<Document>, scope: Scope, code: string) {
    exists i :: 0 <= i < |documents| && documents[i].scope == scope && documents[i].code == code
  }

  predicate CodeFits(code: string) {
    2 <= |code| <= 100
  }

  function NextSeq(counters: map<Scope, int>, scope: Scope): int {
    if scope in counters then counters[scope] else 1
  }

  /** A refused or failed creation leaves everything as it was, a counter row it added included. */
  function Step(upper: string -> string, db: DB, op: Op): (DB, Option<Error>)
    requires CountersOk(db.counters)
  {
    match op
    case Create(scope, referencesOk, manual, overrideOk, commitOk) =>
      var next := NextSeq(db.counters, scope);
      var code := if manual.Some? then manual.value.code else AutoCode(upper, scope.profile, next);
      if !referencesOk then (db, Some(ReferenceInvalid))
      else if manual.Some? && !manual.value.reasonOk then (db, Some(ReasonRequired))
      else if manual.None? && next >= MAX_INT then (db, Some(OutOfRange))
      else if CodeExists(db.documents, scope, code) then (db, Some(CodeTaken))
      else if !overrideOk then (db, Some(OverrideInvalid))
      else if !CodeFits(code) then (db, Some(CheckViolation))
      else if !commitOk then (db, Some(CommitFailed))
      else if manual.Some? then
        (db.(documents := db.documents + [Document(scope, code, None, Active)]), None)
      else
        (DB(db.counters[scope := next + 1], db.documents + [Document(scope, code, Some(next), Active)]), None)
    case ChangeStatus(tenant, id, next) =>
      if !(0 <= id < |db.documents|) || db.documents[id].scope.tenant != tenant then (db, Some(NotFound))
      else if db.documents[id].status != Active then (db, Some(NotActive))
      else (db.(documents := db.documents[id := db.documents[id].(status := next)]), None)
  }

  /** next_seq is an INT. */
  predicate CountersOk(counters: map<Scope, int>) {
    forall s :: s in counters ==> 1 <= counters[s] <= MAX_INT
  }

  class RegistryService {
    const upper: string -> string
    var counters: map<Scope, int>
    var documents: seq<Document>

    constructor (upper: string -> string)
      ensures this.upper == upper && counters == map[] && documents == []
    {
      this.upper, counters, documents := upper, map[], [];
    }

    function Db(): DB
      reads this
    {
      DB(counters, documents)
    }

    method HasCode(scope: Scope, code: string) returns (taken: bool)
      ensures taken == CodeExists(documents, scope, code)
    {
      for i := 0 to |documents|
        invariant forall j :: 0 <= j < i ==> !(documents[j].scope == scope && documents[j].code == code)
      {
        if documents[i].scope == scope && documents[i].code == code { return true; }
      }
      taken := false;
    }

    /** ensureCounter, then UPDATE ... SET next_seq = next_seq + 1 RETURNING next_seq - 1, on the
        transaction's own view of the counters. */
    method NextAndIncrement(tx: map<Scope, int>, scope: Scope) returns (next: Option<int>, after: map<Scope, int>)
      ensures next == if NextSeq(tx, scope) >= MAX_INT then None else Some(NextSeq(tx, scope))
      ensures next.Some? ==> after == tx[scope := NextSeq(tx, scope) + 1]
    {
      after := tx;
      if scope !in after { after := after[scope := 1]; }
      if after[scope] >= MAX_INT { return None, after; }
      after := after[scope := after[scope] + 1];
      next := Some(after[scope] - 1);
    }

    method Create(scope: Scope, referencesOk: bool, manual: Option<Manual>, overrideOk: bool, commitOk: bool)
        returns (err: Option<Error>)
      requires CountersOk(counters)
      modifies this
      ensures (Db(), err) == Step(upper, old(Db()), Op.Create(scope, referencesOk, manual, overrideOk, commitOk))
    {
      if !referencesOk { return Some(ReferenceInvalid); }
      var code: string;
      var sequence: Option<int> := None;
      var tx := counters;
      if manual.Some? {
        if !manual.value.reasonOk { return Some(ReasonRequired); }
        code := manual.value.code;
      } else {
        var next, after := NextAndIncrement(tx, scope);
        if next.None? { return Some(OutOfRange); }
        tx, sequence := after, next;
        code := AutoCode(upper, scope.profile, next.value);
      }
      var taken := HasCode(scope, code);
      if taken { return Some(CodeTaken); }
      if !overrideOk { return Some(OverrideInvalid); }
      if !CodeFits(code) { return Some(CheckViolation); }
      if !commitOk { return Some(CommitFailed); }
      counters, documents := tx, documents + [Document(scope, code, sequence, Active)];
      err := None;
    }

    method ChangeStatus(tenant: string, id: int, next: Status) returns (err: Option<Error>)
      requires CountersOk(counters)
      modifies this
      ensures (Db(), err) == Step(upper, old(Db()), Op.ChangeStatus(tenant, id, next))
    {
      if !(0 <= id < |documents|) || documents[id].scope.tenant != tenant { return Some(NotFound); }
      if documents[id].status != Active { return Some(NotActive); }
      documents := documents[id := documents[id].(status := next)];
      err := None;
    }
  }

  // ----------------------------------------------------------------- invariant

  /** The automatic numbers of a scope, in the order they were given. */
  function Numbers(documents: seq<Document>, scope: Scope): seq<int> {
    if documents == [] then []
    else
      var before, d := Numbers(documents[..|documents| - 1], scope), documents[|documents| - 1];
      if d.scope == scope && d.sequence.Some? then before + [d.sequence.value] else before
  }

  function UpTo(n: int): seq<int>
    requires n >= 0
  {
    seq(n, i requires 0 <= i < n => i + 1)
  }

  ghost predicate NumberedInOrder(db: DB)
    requires CountersOk(db.counters)
  {
    forall scope: Scope :: Numbers(db.documents, scope) == UpTo(NextSeq(db.counters, scope) - 1)
  }

  ghost predicate UniqueCodes(documents: seq<Document>) {
    forall i, j :: 0 <= i < j < |documents| && documents[i].scope == documents[j].scope ==> documents[i].code != documents[j].code
  }

  ghost predicate CodedByNumber(upper: string -> string, d: Document) {
    d.sequence.Some? ==> d.sequence.value >= 1 && d.code == AutoCode(upper, d.scope.profile, d.sequence.value)
  }

  ghost predicate Inv(upper: string -> string, db: DB) {
    && CountersOk(db.counters) && NumberedInOrder(db) && UniqueCodes(db.documents)
    && CodesFit(db.documents) && forall i :: 0 <= i < |db.documents| ==> CodedByNumber(upper, db.documents[i])
  }

  lemma NumbersMore(documents: seq<Document>, d: Document, scope: Scope)
    ensures Numbers(documents + [d], scope)
            == Numbers(documents, scope) + (if d.scope == scope && d.sequence.Some? then [d.sequence.value] else [])
  {
    assert (documents + [d])[..|documents|] == documents;
  }

  lemma {:induction false} StatusKeepsNumbers(documents: seq<Document>, id: int, next: Status, scope: Scope)
    requires 0 <= id < |documents|
    ensures Numbers(documents[id := documents[id].(status := next)], scope) == Numbers(documents, scope)
  {
    var changed := documents[id := documents[id].(status := next)];
    var n := |documents| - 1;
    if id < n {
      assert changed[..n] == documents[..n][id := documents[..n][id].(status := next)];
      StatusKeepsNumbers(documents[..n], id, next, scope);
    } else {
      assert changed[..n] == documents[..n];
    }
  }

  lemma CreateKeepsInv(upper: string -> string, db: DB, d: Document, counters: map<Scope, int>)
    requires Inv(upper, db) && CountersOk(counters) && !CodeExists(db.documents, d.scope, d.code) && CodeFits(d.code)
    requires counters == if d.sequence.Some? then db.counters[d.scope := d.sequence.value + 1] else db.counters
    requires d.sequence.Some? ==> d.sequence.value == NextSeq(db.counters, d.scope) && CodedByNumber(upper, d)
    ensures Inv(upper, DB(counters, db.documents + [d]))
  {
    forall s: Scope ensures Numbers(db.documents + [d], s) == UpTo(NextSeq(counters, s) - 1) {
      NumbersMore(db.documents, d, s);
      assert Numbers(db.documents, s) == UpTo(NextSeq(db.counters, s) - 1);
    }
  }

  lemma StatusKeepsInv(upper: string -> string, db: DB, id: int, next: Status)
    requires Inv(upper, db) && 0 <= id < |db.documents|
    ensures Inv(upper, db.(documents := db.documents[id := db.documents[id].(status := next)]))
  {
    var d := db.(documents := db.documents[id := db.documents[id].(status := next)]);
    forall s: Scope ensures Numbers(d.documents, s) == UpTo(NextSeq(d.counters, s) - 1) {
      StatusKeepsNumbers(db.documents, id, next, s);
      assert Numbers(db.documents, s) == UpTo(NextSeq(db.counters, s) - 1);
    }
    forall i | 0 <= i < |d.documents| ensures CodedByNumber(upper, d.documents[i]) {
      assert CodedByNumber(upper, db.documents[i]);
    }
  }

  lemma StepKeepsInv(upper: string -> string, db: DB, op: Op)
    requires Inv(upper, db)
    ensures Inv(upper, Step(upper, db, op).0)
  {
    var d := Step(upper, db, op).0;
    if d != db {
      match op
      case Create(scope, _, manual, _, _) =>
        CreateKeepsInv(upper, db, d.documents[|db.documents|], d.counters);
      case ChangeStatus(_, id, next) =>
        StatusKeepsInv(upper, db, id, next);
    }
  }

  function RunFrom(upper: string -> string, db: DB, ops: seq<Op>): (d: DB)
    requires CountersOk(db.counters)
    ensures CountersOk(d.counters)
  {
    if ops == [] then db else Step(upper, RunFrom(upper, db, ops[..|ops| - 1]), ops[|ops| - 1]).0
  }

  const EMPTY := DB(map[], [])

  /** On every run, failed creations included, the automatic numbers of each tenant and profile
      are 1, 2, up to next_seq - 1, in that order, each given once. */
  lemma {:induction false} NumbersAreDense(upper: string -> string, ops: seq<Op>)
    ensures Inv(upper, RunFrom(upper, EMPTY, ops))
  {
    if ops == [] {
      assert forall scope: Scope :: Numbers([], scope) == UpTo(0);
    } else {
      NumbersAreDense(upper, ops[..|ops| - 1]);
      StepKeepsInv(upper, RunFrom(upper, EMPTY, ops[..|ops| - 1]), ops[|ops| - 1]);
    }
  }

  lemma {:induction false} NumberOf(documents: seq<Document>, i: int)
    requires 0 <= i < |documents| && documents[i].sequence.Some?
    ensures documents[i].sequence.value in Numbers(documents, documents[i].scope)
  {
    if i < |documents| - 1 {
      NumberOf(documents[..|documents| - 1], i);
    }
  }

  // ------------------------------------------------------------------- blocking

  /** The next automatic code of the scope is in use. */
  ghost predicate Blocked(upper: string -> string, db: DB, scope: Scope)
    requires CountersOk(db.counters)
  {
    CodeExists(db.documents, scope, AutoCode(upper, scope.profile, NextSeq(db.counters, scope)))
  }

  /** An automatic creation goes through exactly when nothing else is wrong and the scope is not
      blocked; when it does not, nothing has changed. */
  lemma AutoCreateIff(upper: string -> string, db: DB, op: Op)
    requires Inv(upper, db) && op.Create? && op.manual.None?
    ensures var (d, err) := Step(upper, db, op);
            var next := NextSeq(db.counters, op.scope);
            && (err.None? <==> !Blocked(upper, db, op.scope) && op.referencesOk && op.overrideOk && op.commitOk
                               && next < MAX_INT && CodeFits(AutoCode(upper, op.scope.profile, next)))
            && (err.Some? ==> d == db)
            && (err.None? ==> NextSeq(d.counters, op.scope) == next + 1)
  {
  }

  /** Only a document coded by hand can block a scope: automatic ones never collide. */
  lemma OnlyManualBlocks(upper: string -> string, db: DB, i: int)
    requires Inv(upper, db) && 0 <= i < |db.documents|
    requires var s := db.documents[i].scope;
             db.documents[i].code == AutoCode(upper, s.profile, NextSeq(db.counters, s))
    ensures db.documents[i].sequence.None?
  {
    var d := db.documents[i];
    if d.sequence.Some? {
      assert CodedByNumber(upper, d);
      NumberOf(db.documents, i);
      assert Numbers(db.documents, d.scope) == UpTo(NextSeq(db.counters, d.scope) - 1);
      AutoCodeTellsNumber(upper, d.scope.profile, d.sequence.value, NextSeq(db.counters, d.scope));
      assert false;
    }
  }

  lemma CodesStay(upper: string -> string, db: DB, op: Op, scope: Scope, code: string)
    requires CountersOk(db.counters) && CodeExists(db.documents, scope, code)
    ensures CodeExists(Step(upper, db, op).0.documents, scope, code)
  {
    var i :| 0 <= i < |db.documents| && db.documents[i].scope == scope && db.documents[i].code == code;
    var after := Step(upper, db, op).0.documents;
    assert after[i].scope == scope && after[i].code == code;
  }

  lemma StepKeepsBlocked(upper: string -> string, db: DB, op: Op, scope: Scope)
    requires CountersOk(db.counters) && Blocked(upper, db, scope)
    ensures var d := Step(upper, db, op).0;
            Blocked(upper, d, scope) && NextSeq(d.counters, scope) == NextSeq(db.counters, scope)
    ensures op.Create? && op.scope == scope && op.manual.None? ==> Step(upper, db, op).1.Some?
  {
    CodesStay(upper, db, op, scope, AutoCode(upper, scope.profile, NextSeq(db.counters, scope)));
  }

  /** A blocked scope stays blocked for good: its counter never moves again, so no automatic
      creation in it ever succeeds, even after the blocking document is retired. */
  lemma {:induction false} BlockedForGood(upper: string -> string, db: DB, ops: seq<Op>, scope: Scope)
    requires CountersOk(db.counters) && Blocked(upper, db, scope)
    ensures var d := RunFrom(upper, db, ops);
            Blocked(upper, d, scope) && NextSeq(d.counters, scope) == NextSeq(db.counters, scope)
  {
    if ops != [] {
      BlockedForGood(upper, db, ops[..|ops| - 1], scope);
      StepKeepsBlocked(upper, RunFrom(upper, db, ops[..|ops| - 1]), ops[|ops| - 1], scope);
    }
  }

  // ------------------------------------------------------ numbering coming to an end

  /** A code not yet reached is in use: the counter will come to it. */
  ghost predicate Doomed(upper: string -> string, db: DB, scope: Scope)
    requires CountersOk(db.counters)
  {
    exists n: nat :: TakenAhead(upper, db, scope, n)
  }

  predicate TakenAhead(upper: string -> string, db: DB, scope: Scope, n: nat)
    requires CountersOk(db.counters)
  {
    NextSeq(db.counters, scope) <= n <= MAX_INT && CodeExists(db.documents, scope, AutoCode(upper, scope.profile, n))
  }

  lemma CounterOnlyGrows(upper: string -> string, db: DB, op: Op, scope: Scope)
    requires CountersOk(db.counters)
    ensures var next, after := NextSeq(db.counters, scope), NextSeq(Step(upper, db, op).0.counters, scope);
            after == next || (after == next + 1 && !Blocked(upper, db, scope))
  {
  }

  /** On every run whatsoever the counter never gets past a taken code. */
  lemma {:induction false} NumberingEndsThere(upper: string -> string, db: DB, ops: seq<Op>, scope: Scope, n: nat)
    requires CountersOk(db.counters) && TakenAhead(upper, db, scope, n)
    ensures TakenAhead(upper, RunFrom(upper, db, ops), scope, n)
  {
    if ops != [] {
      var before, op := ops[..|ops| - 1], ops[|ops| - 1];
      NumberingEndsThere(upper, db, before, scope, n);
      var d := RunFrom(upper, db, before);
      CodesStay(upper, d, op, scope, AutoCode(upper, scope.profile, n));
      CounterOnlyGrows(upper, d, op, scope);
    }
  }

  predicate ManualIn(op: Op, scope: Scope) {
    op.Create? && op.scope == scope && op.manual.Some?
  }

  /** Only a manual creation can take a code ahead of the counter. */
  lemma StepKeepsUndoomed(upper: string -> string, db: DB, op: Op, scope: Scope, n: nat)
    requires CountersOk(db.counters) && !ManualIn(op, scope) && TakenAhead(upper, Step(upper, db, op).0, scope, n)
    ensures TakenAhead(upper, db, scope, n)
  {
    var d := Step(upper, db, op).0;
    var code := AutoCode(upper, scope.profile, n);
    var i :| 0 <= i < |d.documents| && d.documents[i].scope == scope && d.documents[i].code == code;
    CounterOnlyGrows(upper, db, op, scope);
    if i < |db.documents| {
      assert db.documents[i].scope == scope && db.documents[i].code == code;
    } else {
      AutoCodeTellsNumber(upper, scope.profile, n, NextSeq(db.counters, scope));
    }
  }

  /** The automatic creation that lacks nothing but a free code. */
  function Auto(scope: Scope): Op {
    Create(scope, true, None, true, true)
  }

  function Autos(scope: Scope, k: nat): seq<Op> {
    seq(k, i requires 0 <= i < k => Auto(scope))
  }

  lemma {:induction false} LongerDecimal(a: nat, b: nat)
    requires a <= b
    ensures |Decimal(a)| <= |Decimal(b)|
  {
    if a >= 10 { LongerDecimal(a / 10, b / 10); }
  }

  /** Codes before one that fits the column fit it. */
  lemma EarlierFits(upper: string -> string, profile: string, a: nat, b: nat)
    requires a <= b && CodeFits(AutoCode(upper, profile, b))
    ensures CodeFits(AutoCode(upper, profile, a))
  {
    LongerDecimal(a, b);
  }

  ghost predicate CodesFit(documents: seq<Document>) {
    forall i :: 0 <= i < |documents| ==> CodeFits(documents[i].code)
  }

  lemma AutoGoesThrough(upper: string -> string, db: DB, scope: Scope)
    requires CountersOk(db.counters) && !Blocked(upper, db, scope) && NextSeq(db.counters, scope) < MAX_INT
    requires CodeFits(AutoCode(upper, scope.profile, NextSeq(db.counters, scope)))
    ensures var next := NextSeq(db.counters, scope);
            var d := Step(upper, db, Auto(scope)).0;
            && NextSeq(d.counters, scope) == next + 1
            && d.documents == db.documents + [Document(scope, AutoCode(upper, scope.profile, next), Some(next), Active)]
  {
  }

  lemma AutoAdvances(upper: string -> string, db: DB, scope: Scope, n: nat)
    requires CountersOk(db.counters) && CodesFit(db.documents) && TakenAhead(upper, db, scope, n) && !Blocked(upper, db, scope)
    ensures var d := Step(upper, db, Auto(scope)).0;
            && NextSeq(d.counters, scope) == NextSeq(db.counters, scope) + 1
            && CodesFit(d.documents) && TakenAhead(upper, d, scope, n)
  {
    var code, next := AutoCode(upper, scope.profile, n), NextSeq(db.counters, scope);
    assert CodeFits(code) && next < n by {
      var i :| 0 <= i < |db.documents| && db.documents[i].scope == scope && db.documents[i].code == code;
    }
    EarlierFits(upper, scope.profile, next, n);
    CodesStay(upper, db, Auto(scope), scope, code);
    AutoGoesThrough(upper, db, scope);
  }

  /** Nothing but automatic creations brings a doomed scope to its end: as many as there are free
      codes before the first taken one. */
  lemma {:induction false} AutosReachTheEnd(upper: string -> string, db: DB, scope: Scope, n: nat) returns (k: nat)
    requires CountersOk(db.counters) && CodesFit(db.documents) && TakenAhead(upper, db, scope, n)
    ensures Blocked(upper, RunFrom(upper, db, Autos(scope, k)), scope)
    ensures k <= n - NextSeq(db.counters, scope)
    decreases n - NextSeq(db.counters, scope)
  {
    if Blocked(upper, db, scope) {
      k := 0;
    } else {
      AutoAdvances(upper, db, scope, n);
      var rest := AutosReachTheEnd(upper, Step(upper, db, Auto(scope)).0, scope, n);
      FirstAuto(upper, db, scope, rest);
      k := rest + 1;
    }
  }

  lemma {:induction false} FirstStep(upper: string -> string, db: DB, op: Op, ops: seq<Op>)
    requires CountersOk(db.counters)
    ensures var d := Step(upper, db, op).0;
            CountersOk(d.counters) && RunFrom(upper, db, [op] + ops) == RunFrom(upper, d, ops)
  {
    assert [op][..0] == [] && RunFrom(upper, db, []) == db;
    assert RunFrom(upper, db, [op]) == Step(upper, db, op).0;
    if ops == [] {
      assert [op] + ops == [op];
    } else {
      FirstStep(upper, db, op, ops[..|ops| - 1]);
      assert ([op] + ops)[..|ops|] == [op] + ops[..|ops| - 1];
    }
  }

  lemma FirstAuto(upper: string -> string, db: DB, scope: Scope, k: nat)
    requires CountersOk(db.counters)
    ensures RunFrom(upper, db, Autos(scope, k + 1)) == RunFrom(upper, Step(upper, db, Auto(scope)).0, Autos(scope, k))
  {
    FirstStep(upper, db, Auto(scope), Autos(scope, k));
    assert Autos(scope, k + 1) == [Auto(scope)] + Autos(scope, k);
  }

  ghost predicate NoManual(ops: seq<Op>, scope: Scope) {
    forall i :: 0 <= i < |ops| ==> !ManualIn(ops[i], scope)
  }

  lemma AutosAreAutomatic(scope: Scope, k: nat)
    ensures NoManual(Autos(scope, k), scope)
  {
    forall i | 0 <= i < k ensures !ManualIn(Autos(scope, k)[i], scope) {
      assert Autos(scope, k)[i] == Auto(scope);
    }
  }

  ghost predicate CanEnd(upper: string -> string, db: DB, scope: Scope)
    requires CountersOk(db.counters)
  {
    exists ops :: NoManual(ops, scope) && Blocked(upper, RunFrom(upper, db, ops), scope)
  }

  lemma {:induction false} RunKeepsUndoomed(upper: string -> string, db: DB, ops: seq<Op>, scope: Scope, n: nat)
    requires CountersOk(db.counters) && NoManual(ops, scope) && TakenAhead(upper, RunFrom(upper, db, ops), scope, n)
    ensures TakenAhead(upper, db, scope, n)
  {
    if ops != [] {
      var before := ops[..|ops| - 1];
      StepKeepsUndoomed(upper, RunFrom(upper, db, before), ops[|ops| - 1], scope, n);
      RunKeepsUndoomed(upper, db, before, scope, n);
    }
  }

  /** A scope can be blocked by later runs without manual creations in it exactly when some code
      at or ahead of its counter is already in use. */
  lemma CanEndIffDoomed(upper: string -> string, db: DB, scope: Scope)
    requires CountersOk(db.counters) && CodesFit(db.documents)
    ensures CanEnd(upper, db, scope) <==> Doomed(upper, db, scope)
  {
    if ops :| NoManual(ops, scope) && Blocked(upper, RunFrom(upper, db, ops), scope) {
      var d := RunFrom(upper, db, ops);
      assert TakenAhead(upper, d, scope, NextSeq(d.counters, scope));
      RunKeepsUndoomed(upper, db, ops, scope, NextSeq(d.counters, scope));
    }
    if n: nat :| TakenAhead(upper, db, scope, n) {
      var k := AutosReachTheEnd(upper, db, scope, n);
      AutosAreAutomatic(scope, k);
    }
  }

  /** A successful manual creation dooms its scope exactly when the scope was doomed before or the
      code is the automatic one of some number from next_seq on. */
  lemma ManualCodeDoomsIff(upper: string -> string, db: DB, op: Op)
    requires Inv(upper, db) && op.Create? && op.manual.Some? && Step(upper, db, op).1.None?
    ensures var d := Step(upper, db, op).0;
            CanEnd(upper, d, op.scope) <==>
              || CanEnd(upper, db, op.scope)
              || exists n: nat :: NextSeq(db.counters, op.scope) <= n <= MAX_INT
                                  && op.manual.value.code == AutoCode(upper, op.scope.profile, n)
  {
    var d := Step(upper, db, op).0;
    assert CodesFit(d.documents);
    CanEndIffDoomed(upper, db, op.scope);
    CanEndIffDoomed(upper, d, op.scope);
    assert d.documents[|db.documents|].scope == op.scope && d.documents[|db.documents|].code == op.manual.value.code;
    if n: nat :| TakenAhead(upper, d, op.scope, n) {
      var code := AutoCode(upper, op.scope.profile, n);
      var i :| 0 <= i < |d.documents| && d.documents[i].scope == op.scope && d.documents[i].code == code;
      if i < |db.documents| { assert TakenAhead(upper, db, op.scope, n); }
    }
    if n: nat :| TakenAhead(upper, db, op.scope, n) {
      CodesStay(upper, db, op, op.scope, AutoCode(upper, op.scope.profile, n));
      assert TakenAhead(upper, d, op.scope, n);
    }
    if n: nat :| NextSeq(db.counters, op.scope) <= n <= MAX_INT && op.manual.value.code == AutoCode(upper, op.scope.profile, n) {
      assert TakenAhead(upper, d, op.scope, n);
    }
  }

  /** One manual creation with the next automatic code is enough. */
  lemma ManualCodeBlocks(upper: string -> string, db: DB, op: Op)
    requires Inv(upper, db) && op.Create? && op.manual.Some? && Step(upper, db, op).1.None?
    ensures Blocked(upper, Step(upper, db, op).0, op.scope)
            <==> Blocked(upper, db, op.scope)
                 || op.manual.value.code == AutoCode(upper, op.scope.profile, NextSeq(db.counters, op.scope))
  {
    var d := Step(upper, db, op).0;
    assert d.documents[|db.documents|].scope == op.scope && d.documents[|db.documents|].code == op.manual.value.code;
    if Blocked(upper, db, op.scope) {
      CodesStay(upper, db, op, op.scope, AutoCode(upper, op.scope.profile, NextSeq(db.counters, op.scope)));
    }
  }
}
