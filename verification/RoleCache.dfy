/** CachedRoleProvider: a TTL cache in front of the role store. Lookups are not atomic: between
    their locked sections other lookups, invalidations and changes of the store can happen. */
module RoleCache {
  import opened Prelude

  type User = string

  type Roles = seq<string>

  datatype Entry = Entry(roles: Roles, expiresAt: int)

  type Items = map<User, Entry>

  const DEFAULT_TTL := 30_000_000_000

  function Hit(items: Items, user: User, now: int): Option<Roles> {
    if user in items && now < items[user].expiresAt then Some(items[user].roles) else None
  }

  /** The locked sections, as the provider runs them. */
  class CachedRoleProvider {
    const ttl: int
    var items: Items

    constructor (ttl: int)
      ensures this.ttl == (if ttl <= 0 then 30_000_000_000 else ttl) && items == map[]
    {
      this.ttl := if ttl <= 0 then DEFAULT_TTL else ttl;
      items := map[];
    }

    method Peek(userID: User, now: int) returns (roles: Option<Roles>)
      ensures roles == Hit(items, userID, now)
    {
      if userID in items {
        var entry := items[userID];
        if now < entry.expiresAt { return Some(entry.roles); }
      }
      roles := None;
    }

    method Store(userID: User, roles: Roles, now: int)
      modifies this
      ensures items == old(items)[userID := Entry(roles, now + ttl)]
    {
      items := items[userID := Entry(roles, now + ttl)];
    }

    method InvalidateUser(userID: User)
      modifies this
      ensures items == old(items) - {userID}
    {
      items := items - {userID};
    }

    method InvalidateAll()
      modifies this
      ensures items == map[]
    {
      items := map[];
    }

    /** A lookup nothing interrupts; `fetched` is what the store answers if it is asked. */
    method RolesByUserID(userID: User, now: int, fetched: Option<Roles>) returns (roles: Option<Roles>)
      modifies this
      ensures userID in old(items) && now < old(items)[userID].expiresAt ==>
                roles == Some(old(items)[userID].roles) && items == old(items)
      ensures !(userID in old(items) && now < old(items)[userID].expiresAt) ==>
                && roles == fetched
                && items == if fetched.Some? then old(items)[userID := Entry(fetched.value, now + ttl)] else old(items)
    {
      roles := Peek(userID, now);
      if roles.Some? { return; }
      if fetched.None? { return None; }
      Store(userID, fetched.value, now);
      roles := fetched;
    }
  }

  // -------------------------------------------------------- interleaved lookups

  datatype Phase = Started | Missed | Fetched(roles: Roles) | Answered(roles: Roles, at: int) | Failed

  /** A lookup in progress; `start` is the time it read first. */
  datatype Call = Call(user: User, start: int, phase: Phase)

  datatype State = State(clock: int, base: map<User, Roles>, items: Items, calls: map<nat, Call>)

  datatype Step =
    | Tick(d: nat)
    | ChangeBase(user: User, roles: Roles)
    | Begin(id: nat, user: User)
    | Peek(id: nat)
    | Fetch(id: nat, ok: bool)
    | Store(id: nat)
    | InvalidateUser(user: User)
    | InvalidateAll

  function BaseRoles(base: map<User, Roles>, user: User): Roles {
    if user in base then base[user] else []
  }

  predicate InPhase(s: State, id: nat, phase: Phase) {
    id in s.calls && s.calls[id].phase == phase
  }

  function SetPhase(s: State, id: nat, phase: Phase): State
    requires id in s.calls
  {
    s.(calls := s.calls[id := s.calls[id].(phase := phase)])
  }

  /** Steps that are not possible change nothing. */
  function Apply(ttl: int, s: State, step: Step): State {
    match step
    case Tick(d) => s.(clock := s.clock + d)
    case ChangeBase(user, roles) => s.(base := s.base[user := roles])
    case Begin(id, user) =>
      if id in s.calls then s else s.(calls := s.calls[id := Call(user, s.clock, Started)])
    case Peek(id) =>
      if !InPhase(s, id, Started) then s
      else
        var hit := Hit(s.items, s.calls[id].user, s.calls[id].start);
        SetPhase(s, id, if hit.Some? then Answered(hit.value, s.clock) else Missed)
    case Fetch(id, ok) =>
      if !InPhase(s, id, Missed) then s
      else SetPhase(s, id, if ok then Fetched(BaseRoles(s.base, s.calls[id].user)) else Failed)
    case Store(id) =>
      if !(id in s.calls && s.calls[id].phase.Fetched?) then s
      else
        var call := s.calls[id];
        SetPhase(s, id, Answered(call.phase.roles, s.clock))
          .(items := s.items[call.user := Entry(call.phase.roles, call.start + ttl)])
    case InvalidateUser(user) => s.(items := s.items - {user})
    case InvalidateAll => s.(items := map[])
  }

  ghost predicate Others(s: State, t: State, id: nat) {
    t.clock == s.clock && t.base == s.base && OnlyRow(s.calls, t.calls, id)
  }

  /** A started lookup is answered from an entry that lives at its start, and misses otherwise. */
  lemma PeekIs(ttl: int, s: State, id: nat)
    requires id in s.calls && s.calls[id].phase == Started
    ensures var call, t := s.calls[id], Apply(ttl, s, Peek(id));
            && Others(s, t, id) && t.items == s.items && t.calls[id].user == call.user && t.calls[id].start == call.start
            && t.calls[id].phase == if call.user in s.items && call.start < s.items[call.user].expiresAt
                                    then Answered(s.items[call.user].roles, s.clock) else Missed
  {
  }

  /** A lookup that missed takes what the store has now; what it fetched is answered and kept until
      ttl after its start. */
  lemma FetchAndStoreAre(ttl: int, s: State, id: nat, ok: bool)
    requires id in s.calls
    ensures var call, t := s.calls[id], Apply(ttl, s, Fetch(id, ok));
            call.phase == Missed ==>
              && Others(s, t, id) && t.items == s.items && t.calls[id].user == call.user && t.calls[id].start == call.start
              && t.calls[id].phase == if !ok then Failed
                                      else Fetched(if call.user in s.base then s.base[call.user] else [])
    ensures var call, t := s.calls[id], Apply(ttl, s, Store(id));
            call.phase.Fetched? ==>
              && Others(s, t, id) && t.calls[id].user == call.user && t.calls[id].start == call.start
              && t.calls[id].phase == Answered(call.phase.roles, s.clock)
              && OnlyRow(s.items, t.items, call.user) && t.items[call.user] == Entry(call.phase.roles, call.start + ttl)
  {
  }

  /** Invalidating forgets the entries and touches nothing else. */
  lemma InvalidatesAre(ttl: int, s: State, user: User)
    ensures var t := Apply(ttl, s, InvalidateUser(user));
            t.(items := s.items) == s && forall u :: u in t.items <==> u in s.items && u != user
    ensures forall u :: u in Apply(ttl, s, InvalidateUser(user)).items ==>
              Apply(ttl, s, InvalidateUser(user)).items[u] == s.items[u]
    ensures Apply(ttl, s, InvalidateAll).(items := s.items) == s && Apply(ttl, s, InvalidateAll).items == map[]
  {
  }

  function Run(ttl: int, init: State, steps: seq<Step>): State {
    if steps == [] then init else Apply(ttl, Run(ttl, init, steps[..|steps| - 1]), steps[|steps| - 1])
  }

  function Initial(clock: int, base: map<User, Roles>): State {
    State(clock, base, map[], map[])
  }

  /** The state `k` steps into the run. */
  function At(ttl: int, init: State, steps: seq<Step>, k: nat): State
    requires k <= |steps|
  {
    Run(ttl, init, steps[..k])
  }

  /** At point `k` of the run, within the times given, the store held these roles. */
  ghost predicate Held(ttl: int, init: State, steps: seq<Step>, user: User, roles: Roles, k: nat, from: int, to: int) {
    && k <= |steps| && BaseRoles(At(ttl, init, steps, k).base, user) == roles
    && from <= At(ttl, init, steps, k).clock <= to
  }

  ghost predicate HeldSince(ttl: int, init: State, steps: seq<Step>, user: User, roles: Roles, first: nat, from: int, to: int) {
    exists k: nat :: first <= k && Held(ttl, init, steps, user, roles, k, from, to)
  }

  ghost predicate EntryBacked(ttl: int, init: State, steps: seq<Step>, first: nat, user: User, e: Entry) {
    HeldSince(ttl, init, steps, user, e.roles, first, e.expiresAt - ttl, Run(ttl, init, steps).clock)
  }

  ghost predicate CallBacked(ttl: int, init: State, steps: seq<Step>, first: nat, call: Call) {
    match call.phase
    case Fetched(roles) => HeldSince(ttl, init, steps, call.user, roles, first, call.start, Run(ttl, init, steps).clock)
    case Answered(roles, at) =>
      at <= Run(ttl, init, steps).clock && HeldSince(ttl, init, steps, call.user, roles, first, call.start - ttl + 1, at)
    case _ => true
  }

  lemma Prefix(ttl: int, init: State, steps: seq<Step>, more: Step, k: nat)
    requires k <= |steps|
    ensures At(ttl, init, steps + [more], k) == At(ttl, init, steps, k)
    ensures Run(ttl, init, steps + [more]) == Apply(ttl, Run(ttl, init, steps), more)
  {
    assert (steps + [more])[..k] == steps[..k];
    assert (steps + [more])[..|steps|] == steps;
  }

  /** What was held in a run was held in every longer one. */
  lemma StillHeld(ttl: int, init: State, steps: seq<Step>, more: Step,
                                     user: User, roles: Roles, first: nat, from: int, to: int, later: int)
    requires HeldSince(ttl, init, steps, user, roles, first, from, to) && to <= later
    ensures HeldSince(ttl, init, steps + [more], user, roles, first, from, later)
  {
    var k: nat :| first <= k && Held(ttl, init, steps, user, roles, k, from, to);
    Prefix(ttl, init, steps, more, k);
    assert Held(ttl, init, steps + [more], user, roles, k, from, later);
  }

  lemma HeldNow(ttl: int, init: State, steps: seq<Step>, user: User, from: int)
    requires from <= Run(ttl, init, steps).clock
    ensures var s := Run(ttl, init, steps);
            HeldSince(ttl, init, steps, user, BaseRoles(s.base, user), |steps|, from, s.clock)
  {
    assert steps[..|steps|] == steps;
    assert Held(ttl, init, steps, user, BaseRoles(Run(ttl, init, steps).base, user), |steps|, from, Run(ttl, init, steps).clock);
  }

  lemma HeldEarlier(ttl: int, init: State, steps: seq<Step>, user: User, roles: Roles,
                                       first: nat, from: int, to: int, earlier: int)
    requires HeldSince(ttl, init, steps, user, roles, first, from, to) && earlier <= from
    ensures HeldSince(ttl, init, steps, user, roles, first, earlier, to)
  {
    var k: nat :| first <= k && Held(ttl, init, steps, user, roles, k, from, to);
    assert Held(ttl, init, steps, user, roles, k, earlier, to);
  }

  lemma ClockAdvances(ttl: int, s: State, step: Step)
    ensures s.clock <= Apply(ttl, s, step).clock
  {
  }

  lemma CallStillBacked(ttl: int, init: State, steps: seq<Step>, more: Step, first: nat, call: Call)
    requires CallBacked(ttl, init, steps, first, call)
    ensures CallBacked(ttl, init, steps + [more], first, call)
  {
    var clock := Run(ttl, init, steps).clock;
    var later := Run(ttl, init, steps + [more]).clock;
    Prefix(ttl, init, steps, more, 0);
    ClockAdvances(ttl, Run(ttl, init, steps), more);
    match call.phase
    case Fetched(roles) => StillHeld(ttl, init, steps, more, call.user, roles, first, call.start, clock, later);
    case Answered(roles, at) => StillHeld(ttl, init, steps, more, call.user, roles, first, call.start - ttl + 1, at, at);
    case _ =>
  }

  lemma EntryStillBacked(ttl: int, init: State, steps: seq<Step>, more: Step, first: nat, user: User, e: Entry)
    requires EntryBacked(ttl, init, steps, first, user, e)
    ensures EntryBacked(ttl, init, steps + [more], first, user, e)
  {
    Prefix(ttl, init, steps, more, 0);
    ClockAdvances(ttl, Run(ttl, init, steps), more);
    StillHeld(ttl, init, steps, more, user, e.roles, first, e.expiresAt - ttl, Run(ttl, init, steps).clock,
              Run(ttl, init, steps + [more]).clock);
  }

  /** Everything about `user`, but the calls in `done`, comes from the store at point `first` or
      later: the cached entry, the roles being carried to it, the answers given. */
  ghost predicate Backed(ttl: int, init: State, steps: seq<Step>, first: nat, user: User, done: set<nat>) {
    var s := Run(ttl, init, steps);
    && first <= |steps|
    && (user in s.items ==> EntryBacked(ttl, init, steps, first, user, s.items[user]))
    && (forall id :: id in s.calls && s.calls[id].user == user ==> CallOk(ttl, init, steps, first, done, id, s.calls[id]))
  }

  ghost predicate CallOk(ttl: int, init: State, steps: seq<Step>, first: nat, done: set<nat>, id: nat, call: Call) {
    && call.start <= Run(ttl, init, steps).clock
    && (if id in done then call.phase.Answered? else CallBacked(ttl, init, steps, first, call))
  }

  lemma CallStillOk(ttl: int, init: State, steps: seq<Step>, more: Step, first: nat, done: set<nat>, id: nat, call: Call)
    requires CallOk(ttl, init, steps, first, done, id, call)
    ensures CallOk(ttl, init, steps + [more], first, done, id, call)
  {
    Prefix(ttl, init, steps, more, 0);
    ClockAdvances(ttl, Run(ttl, init, steps), more);
    if id !in done { CallStillBacked(ttl, init, steps, more, first, call); }
  }

  lemma PeekedCallBacked(ttl: int, init: State, steps: seq<Step>, more: Step, first: nat, user: User, done: set<nat>, id: nat)
    requires ttl > 0 && Backed(ttl, init, steps, first, user, done) && more.Peek? && more.id == id
    requires id in Run(ttl, init, steps).calls && Run(ttl, init, steps).calls[id].user == user
    requires Apply(ttl, Run(ttl, init, steps), more).calls[id] != Run(ttl, init, steps).calls[id]
    ensures CallOk(ttl, init, steps + [more], first, done, id, Apply(ttl, Run(ttl, init, steps), more).calls[id])
  {
    var s := Run(ttl, init, steps);
    var call, moved := s.calls[id], Apply(ttl, s, more).calls[id];
    Prefix(ttl, init, steps, more, 0);
    assert CallOk(ttl, init, steps, first, done, id, call);
    if moved.phase.Answered? {
      var e := s.items[user];
      HeldEarlier(ttl, init, steps, user, e.roles, first, e.expiresAt - ttl, s.clock, call.start - ttl + 1);
      StillHeld(ttl, init, steps, more, user, e.roles, first, call.start - ttl + 1, s.clock, s.clock);
    }
  }

  lemma FetchedCallBacked(ttl: int, init: State, steps: seq<Step>, more: Step, first: nat, user: User, done: set<nat>, id: nat)
    requires ttl > 0 && Backed(ttl, init, steps, first, user, done) && more.Fetch? && more.id == id
    requires id in Run(ttl, init, steps).calls && Run(ttl, init, steps).calls[id].user == user
    requires Apply(ttl, Run(ttl, init, steps), more).calls[id] != Run(ttl, init, steps).calls[id]
    ensures CallOk(ttl, init, steps + [more], first, done, id, Apply(ttl, Run(ttl, init, steps), more).calls[id])
  {
    var s := Run(ttl, init, steps);
    var call, moved := s.calls[id], Apply(ttl, s, more).calls[id];
    Prefix(ttl, init, steps, more, 0);
    assert CallOk(ttl, init, steps, first, done, id, call);
    if moved.phase.Fetched? {
      HeldNow(ttl, init, steps, user, call.start);
      HeldFrom(ttl, init, steps, user, moved.phase.roles, |steps|, first, call.start, s.clock);
      StillHeld(ttl, init, steps, more, user, moved.phase.roles, first, call.start, s.clock, s.clock);
    }
  }

  lemma StoredCallBacked(ttl: int, init: State, steps: seq<Step>, more: Step, first: nat, user: User, done: set<nat>, id: nat)
    requires ttl > 0 && Backed(ttl, init, steps, first, user, done) && more.Store? && more.id == id
    requires id in Run(ttl, init, steps).calls && Run(ttl, init, steps).calls[id].user == user
    requires Apply(ttl, Run(ttl, init, steps), more).calls[id] != Run(ttl, init, steps).calls[id]
    ensures CallOk(ttl, init, steps + [more], first, done, id, Apply(ttl, Run(ttl, init, steps), more).calls[id])
  {
    var s := Run(ttl, init, steps);
    var call, moved := s.calls[id], Apply(ttl, s, more).calls[id];
    Prefix(ttl, init, steps, more, 0);
    assert CallOk(ttl, init, steps, first, done, id, call);
    HeldEarlier(ttl, init, steps, user, call.phase.roles, first, call.start, s.clock, call.start - ttl + 1);
    StillHeld(ttl, init, steps, more, user, call.phase.roles, first, call.start - ttl + 1, s.clock, s.clock);
  }

  /** The call a step moves on is backed in its new phase. */
  lemma MovedCallBacked(ttl: int, init: State, steps: seq<Step>, more: Step, first: nat, user: User, done: set<nat>, id: nat)
    requires ttl > 0 && Backed(ttl, init, steps, first, user, done)
    requires id in Run(ttl, init, steps).calls && Run(ttl, init, steps).calls[id].user == user
    requires (more.Peek? || more.Fetch? || more.Store?) && more.id == id
    requires Apply(ttl, Run(ttl, init, steps), more).calls[id] != Run(ttl, init, steps).calls[id]
    ensures CallOk(ttl, init, steps + [more], first, done, id, Apply(ttl, Run(ttl, init, steps), more).calls[id])
  {
    match more
    case Peek(_) => PeekedCallBacked(ttl, init, steps, more, first, user, done, id);
    case Fetch(_, _) => FetchedCallBacked(ttl, init, steps, more, first, user, done, id);
    case Store(_) => StoredCallBacked(ttl, init, steps, more, first, user, done, id);
  }

  lemma HeldFrom(ttl: int, init: State, steps: seq<Step>, user: User, roles: Roles,
                                    first: nat, before: nat, from: int, to: int)
    requires HeldSince(ttl, init, steps, user, roles, first, from, to) && before <= first
    ensures HeldSince(ttl, init, steps, user, roles, before, from, to)
  {
    var k: nat :| first <= k && Held(ttl, init, steps, user, roles, k, from, to);
    assert before <= k;
  }

  lemma StepKeepsBacked(ttl: int, init: State, steps: seq<Step>, more: Step, first: nat, user: User, done: set<nat>)
    requires ttl > 0 && Backed(ttl, init, steps, first, user, done)
    requires forall id :: id in done ==> id in Run(ttl, init, steps).calls
    ensures Backed(ttl, init, steps + [more], first, user, done)
    ensures forall id :: id in done ==> id in Run(ttl, init, steps + [more]).calls
  {
    var s := Run(ttl, init, steps);
    var t := Run(ttl, init, steps + [more]);
    Prefix(ttl, init, steps, more, 0);
    forall id | id in t.calls && t.calls[id].user == user
      ensures CallOk(ttl, init, steps + [more], first, done, id, t.calls[id])
    {
      if id in s.calls {
        CallStillOk(ttl, init, steps, more, first, done, id, s.calls[id]);
        if t.calls[id] != s.calls[id] { MovedCallBacked(ttl, init, steps, more, first, user, done, id); }
      }
    }
    if user in t.items {
      if user in s.items && t.items[user] == s.items[user] {
        EntryStillBacked(ttl, init, steps, more, first, user, s.items[user]);
      } else {
        var call := s.calls[more.id];
        StillHeld(ttl, init, steps, more, user, call.phase.roles, first, call.start, s.clock, s.clock);
      }
    }
  }

  lemma {:induction false} RunIsBacked(ttl: int, init: State, pre: seq<Step>, post: seq<Step>, first: nat, user: User, done: set<nat>)
    requires ttl > 0 && Backed(ttl, init, pre, first, user, done)
    requires forall id :: id in done ==> id in Run(ttl, init, pre).calls
    ensures Backed(ttl, init, pre + post, first, user, done)
    ensures forall id :: id in done ==> id in Run(ttl, init, pre + post).calls
  {
    if post == [] {
      assert pre + post == pre;
    } else {
      var rest := post[..|post| - 1];
      RunIsBacked(ttl, init, pre, rest, first, user, done);
      StepKeepsBacked(ttl, init, pre + rest, post[|post| - 1], first, user, done);
      assert pre + rest + [post[|post| - 1]] == pre + post;
    }
  }

  // ---------------------------------------------------------------- theorems

  lemma RunFromStart(ttl: int, clock: int, base: map<User, Roles>, steps: seq<Step>, user: User)
    requires ttl > 0
    ensures Backed(ttl, Initial(clock, base), steps, 0, user, {})
  {
    var init := Initial(clock, base);
    assert Run(ttl, init, []) == init;
    RunIsBacked(ttl, init, [], steps, 0, user, {});
    assert [] + steps == steps;
  }

  /** Roles given to a lookup that started at s and was answered at e were in the store at some
      instant in (s - ttl, e], whatever ran in between. */
  lemma AnswerIsFresh(ttl: int, clock: int, base: map<User, Roles>, steps: seq<Step>, id: nat)
    requires ttl > 0
    requires id in Run(ttl, Initial(clock, base), steps).calls
    requires Run(ttl, Initial(clock, base), steps).calls[id].phase.Answered?
    ensures var call := Run(ttl, Initial(clock, base), steps).calls[id];
            HeldSince(ttl, Initial(clock, base), steps, call.user, call.phase.roles, 0, call.start - ttl + 1, call.phase.at)
  {
    var call := Run(ttl, Initial(clock, base), steps).calls[id];
    RunFromStart(ttl, clock, base, steps, call.user);
    assert CallOk(ttl, Initial(clock, base), steps, 0, {}, id, call);
  }

  // ------------------------------------------------------------ invalidation as a fence

  ghost predicate CarriesStale(s: State, user: User, id: nat) {
    id in s.calls && s.calls[id].user == user && s.calls[id].phase.Fetched?
    && s.calls[id].phase.roles != BaseRoles(s.base, user)
  }

  /** A lookup of the user is between its fetch and its store with roles that are not the
      store's any more. */
  ghost predicate CarryingStale(s: State, user: User) {
    exists id :: CarriesStale(s, user, id)
  }

  function AnsweredBy(s: State): set<nat> {
    set id | id in s.calls && s.calls[id].phase.Answered?
  }

  predicate Drops(fence: Step, user: User) {
    fence == InvalidateUser(user) || fence == InvalidateAll
  }

  /** The roles of an answer were in the store at point `first` of the run or later. */
  ghost predicate AnswerSince(ttl: int, init: State, steps: seq<Step>, first: nat, user: User, roles: Roles) {
    exists k: nat :: first <= k <= |steps| && BaseRoles(At(ttl, init, steps, k).base, user) == roles
  }

  ghost predicate AnswersLater(ttl: int, init: State, pre: seq<Step>, steps: seq<Step>, user: User, id: nat) {
    var s := Run(ttl, init, steps);
    id in s.calls && s.calls[id].user == user && s.calls[id].phase.Answered? && id !in AnsweredBy(Run(ttl, init, pre))
  }

  /** On every continuation every later answer for the user was in the store at the invalidation
      or after. */
  ghost predicate Fenced(ttl: int, init: State, pre: seq<Step>, fence: Step, user: User) {
    forall post: seq<Step>, id: nat :: AnswersLater(ttl, init, pre, pre + [fence] + post, user, id) ==>
      AnswerSince(ttl, init, pre + [fence] + post, |pre|, user, Run(ttl, init, pre + [fence] + post).calls[id].phase.roles)
  }

  lemma CurrentRolesAreBacked(ttl: int, init: State, pre: seq<Step>, fence: Step, user: User)
    requires Drops(fence, user) && Backed(ttl, init, pre, 0, user, {}) && !CarryingStale(Run(ttl, init, pre), user)
    ensures Backed(ttl, init, pre + [fence], |pre|, user, AnsweredBy(Run(ttl, init, pre)))
  {
    var s := Run(ttl, init, pre);
    var done := AnsweredBy(s);
    Prefix(ttl, init, pre, fence, 0);
    forall i | i in s.calls && s.calls[i].user == user ensures CallOk(ttl, init, pre + [fence], |pre|, done, i, s.calls[i]) {
      var call := s.calls[i];
      assert CallOk(ttl, init, pre, 0, {}, i, call);
      if call.phase.Fetched? {
        assert !CarriesStale(s, user, i);
        HeldNow(ttl, init, pre, user, call.start);
        StillHeld(ttl, init, pre, fence, user, call.phase.roles, |pre|, call.start, s.clock, s.clock);
      }
    }
  }

  lemma FreshWhenNothingStale(ttl: int, clock: int, base: map<User, Roles>, pre: seq<Step>, fence: Step,
                                                 user: User, post: seq<Step>, id: nat)
    requires ttl > 0 && Drops(fence, user) && !CarryingStale(Run(ttl, Initial(clock, base), pre), user)
    requires AnswersLater(ttl, Initial(clock, base), pre, pre + [fence] + post, user, id)
    ensures var init, steps := Initial(clock, base), pre + [fence] + post;
            AnswerSince(ttl, init, steps, |pre|, user, Run(ttl, init, steps).calls[id].phase.roles)
  {
    var init := Initial(clock, base);
    var s := Run(ttl, init, pre);
    RunFromStart(ttl, clock, base, pre, user);
    CurrentRolesAreBacked(ttl, init, pre, fence, user);
    Prefix(ttl, init, pre, fence, 0);
    RunIsBacked(ttl, init, pre + [fence], post, |pre|, user, AnsweredBy(s));
    var call := Run(ttl, init, pre + [fence] + post).calls[id];
    assert CallOk(ttl, init, pre + [fence] + post, |pre|, AnsweredBy(s), id, call);
    var k: nat :| |pre| <= k && Held(ttl, init, pre + [fence] + post, user, call.phase.roles, k, call.start - ttl + 1, call.phase.at);
  }

  /** The lookup that carries stale roles has only to store them. */
  lemma StaleRolesAreAnswered(ttl: int, init: State, pre: seq<Step>, fence: Step, user: User, id: nat)
    requires Drops(fence, user) && CarriesStale(Run(ttl, init, pre), user, id)
    ensures var steps := pre + [fence] + [Store(id)];
            AnswersLater(ttl, init, pre, steps, user, id)
            && !AnswerSince(ttl, init, steps, |pre|, user, Run(ttl, init, steps).calls[id].phase.roles)
  {
    var s := Run(ttl, init, pre);
    var steps := pre + [fence] + [Store(id)];
    var roles := s.calls[id].phase.roles;
    Prefix(ttl, init, pre, fence, |pre|);
    Prefix(ttl, init, pre + [fence], Store(id), |pre|);
    Prefix(ttl, init, pre + [fence], Store(id), |pre| + 1);
    assert pre[..|pre|] == pre && (pre + [fence])[..|pre| + 1] == pre + [fence] && steps[..|steps|] == steps;
    assert Run(ttl, init, steps).calls[id].phase.roles == roles;
    forall k: nat | |pre| <= k <= |steps| ensures BaseRoles(At(ttl, init, steps, k).base, user) != roles {
      assert At(ttl, init, steps, k).base == s.base;
    }
  }

  /** Dropping a user's entry, or all entries, is a fence for that user exactly when no lookup of
      the user carries roles to the cache that the store no longer holds. */
  lemma FencedIff(ttl: int, clock: int, base: map<User, Roles>, pre: seq<Step>, fence: Step, user: User)
    requires ttl > 0 && Drops(fence, user)
    ensures Fenced(ttl, Initial(clock, base), pre, fence, user) <==> !CarryingStale(Run(ttl, Initial(clock, base), pre), user)
  {
    var init := Initial(clock, base);
    if !CarryingStale(Run(ttl, init, pre), user) {
      forall post: seq<Step>, id: nat | AnswersLater(ttl, init, pre, pre + [fence] + post, user, id)
        ensures AnswerSince(ttl, init, pre + [fence] + post, |pre|, user, Run(ttl, init, pre + [fence] + post).calls[id].phase.roles)
      {
        FreshWhenNothingStale(ttl, clock, base, pre, fence, user, post, id);
      }
    }
    if id: nat :| CarriesStale(Run(ttl, init, pre), user, id) {
      StaleRolesAreAnswered(ttl, init, pre, fence, user, id);
      assert !Fenced(ttl, init, pre, fence, user);
    }
  }

  /** Such runs exist: a lookup fetches, the store changes. */
  lemma StaleRunsExist(ttl: int, user: User, before: Roles, after: Roles)
    requires ttl > 0 && before != after
    ensures CarriesStale(Run(ttl, Initial(0, map[user := before]), [Begin(0, user), Peek(0), Fetch(0, true), ChangeBase(user, after)]), user, 0)
  {
    var init := Initial(0, map[user := before]);
    var steps := [Begin(0, user), Peek(0), Fetch(0, true), ChangeBase(user, after)];
    RunOneMore(ttl, init, steps, 0);
    RunOneMore(ttl, init, steps, 1);
    RunOneMore(ttl, init, steps, 2);
    RunOneMore(ttl, init, steps, 3);
    assert steps[..4] == steps;
    assert Run(ttl, init, steps[..1]) == init.(calls := map[0 := Call(user, 0, Started)]);
    assert Run(ttl, init, steps[..2]) == init.(calls := map[0 := Call(user, 0, Missed)]);
    assert Run(ttl, init, steps[..3]) == init.(calls := map[0 := Call(user, 0, Fetched(before))]);
  }

  lemma RunOneMore(ttl: int, init: State, steps: seq<Step>, k: nat)
    requires k < |steps|
    ensures Run(ttl, init, steps[..0]) == init
    ensures Run(ttl, init, steps[..k + 1]) == Apply(ttl, Run(ttl, init, steps[..k]), steps[k])
  {
    assert steps[..k + 1][..k] == steps[..k];
  }
}
