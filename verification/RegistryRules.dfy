/** What the registry's operations ask for and write, stated on counters, rows and characters. */
module RegistryRules {
  import opened Prelude
  import opened Registry

  // -------------------------------------------------------------------- codes

  predicate Digits(s: string) {
    forall i :: 0 <= i < |s| ==> '0' <= s[i] <= '9'
  }

  lemma {:induction false} DecimalShape(n: nat)
    ensures Digits(Decimal(n)) && |Decimal(n)| >= 1
    ensures n >= 10 ==> |Decimal(n)| >= 2
    ensures n > 0 ==> Decimal(n)[0] != '0'
  {
    if n >= 10 { DecimalShape(n / 10); }
  }

  /** The code of number n is the profile in upper case, a dash, and the decimal digits of n with
      a zero before a single one. */
  lemma AutoCodeShape(upper: string -> string, profile: string, n: nat) returns (digits: string)
    ensures AutoCode(upper, profile, n) == upper(profile) + "-" + digits
    ensures Digits(digits) && Value(digits) == n && |digits| >= 2
    ensures |digits| > 2 ==> digits[0] != '0'
  {
    digits := AutoCode(upper, profile, n)[|upper(profile)| + 1..];
    DecimalShape(n);
    DecimalReadsBack(n);
  }

  /** That fixes the digits: no other string of them meets it. */
  lemma {:induction false} DigitsAreOnly(s: string, t: string)
    requires Digits(s) && Digits(t) && Value(s) == Value(t) && |s| == |t|
    ensures s == t
  {
    if s != [] {
      var n := |s| - 1;
      assert '0' <= s[n] <= '9' && '0' <= t[n] <= '9';
      assert 0 <= ValueOfDigit(s[n]) < 10 && 0 <= ValueOfDigit(t[n]) < 10;
      assert Value(s[..n]) == Value(t[..n]) && ValueOfDigit(s[n]) == ValueOfDigit(t[n]);
      DigitsAreOnly(s[..n], t[..n]);
      assert s == s[..n] + [s[n]] && t == t[..n] + [t[n]];
    }
  }

  // ---------------------------------------------------------------- creations

  /** Some document of this tenant and profile has the code. */
  ghost predicate Taken(db: DB, tenant: string, profile: string, code: string) {
    exists i :: && 0 <= i < |db.documents| && db.documents[i].scope.tenant == tenant
                && db.documents[i].scope.profile == profile && db.documents[i].code == code
  }

  lemma TakenIff(db: DB, scope: Scope, code: string)
    ensures CodeExists(db.documents, scope, code) <==> Taken(db, scope.tenant, scope.profile, code)
  {
    if i :| && 0 <= i < |db.documents| && db.documents[i].scope.tenant == scope.tenant
            && db.documents[i].scope.profile == scope.profile && db.documents[i].code == code {
      assert db.documents[i].scope == scope;
    }
  }

  /** A creation under a manual code needs its reason, a code that is free and of 2 to 100
      characters, and leaves the counters alone. */
  lemma ManualCreateIff(upper: string -> string, db: DB, scope: Scope, referencesOk: bool, manual: Manual,
                        overrideOk: bool, commitOk: bool)
    requires CountersOk(db.counters)
    ensures var (d, err) := Step(upper, db, Create(scope, referencesOk, Some(manual), overrideOk, commitOk));
            && err == (if !referencesOk then Some(ReferenceInvalid)
                       else if !manual.reasonOk then Some(ReasonRequired)
                       else if Taken(db, scope.tenant, scope.profile, manual.code) then Some(CodeTaken)
                       else if !overrideOk then Some(OverrideInvalid)
                       else if |manual.code| < 2 || |manual.code| > 100 then Some(CheckViolation)
                       else if !commitOk then Some(CommitFailed)
                       else None)
            && (err.Some? ==> d == db)
            && (err.None? ==>
                  && d.counters == db.counters
                  && |d.documents| == |db.documents| + 1 && d.documents[..|db.documents|] == db.documents
                  && var row := d.documents[|db.documents|];
                     row.scope == scope && row.code == manual.code && row.sequence == None && row.status == Active)
  {
    TakenIff(db, scope, manual.code);
  }

  /** An automatic one takes the counter's number, 1 at first, and moves it on by one. */
  lemma AutomaticCreateIff(upper: string -> string, db: DB, scope: Scope, referencesOk: bool, overrideOk: bool, commitOk: bool)
    requires CountersOk(db.counters)
    ensures var (d, err) := Step(upper, db, Create(scope, referencesOk, None, overrideOk, commitOk));
            var next := if scope in db.counters then db.counters[scope] else 1;
            var code := AutoCode(upper, scope.profile, next);
            && err == (if !referencesOk then Some(ReferenceInvalid)
                       else if next == 2147483647 then Some(OutOfRange)
                       else if Taken(db, scope.tenant, scope.profile, code) then Some(CodeTaken)
                       else if !overrideOk then Some(OverrideInvalid)
                       else if |code| < 2 || |code| > 100 then Some(CheckViolation)
                       else if !commitOk then Some(CommitFailed)
                       else None)
            && (err.Some? ==> d == db)
            && (err.None? ==>
                  && OnlyRow(db.counters, d.counters, scope) && d.counters[scope] == next + 1
                  && |d.documents| == |db.documents| + 1 && d.documents[..|db.documents|] == db.documents
                  && var row := d.documents[|db.documents|];
                     row.scope == scope && row.code == code && row.sequence == Some(next) && row.status == Active)
  {
    TakenIff(db, scope, AutoCode(upper, scope.profile, NextSeq(db.counters, scope)));
  }

  /** An active document of the tenant takes the status asked for; nothing else changes. */
  lemma ChangeStatusIff(upper: string -> string, db: DB, tenant: string, id: int, next: Status)
    requires CountersOk(db.counters)
    ensures var (d, err) := Step(upper, db, ChangeStatus(tenant, id, next));
            && err == (if id < 0 || id >= |db.documents| || db.documents[id].scope.tenant != tenant then Some(NotFound)
                       else if db.documents[id].status != Active then Some(NotActive)
                       else None)
            && (err.Some? ==> d == db)
            && (err.None? ==>
                  && d.counters == db.counters && |d.documents| == |db.documents|
                  && d.documents[id].status == next && d.documents[id].(status := Active) == db.documents[id]
                  && forall i :: 0 <= i < |db.documents| && i != id ==> d.documents[i] == db.documents[i])
  {
  }
}
