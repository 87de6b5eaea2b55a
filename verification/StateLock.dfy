/** Resource locks with expiry: the table under one mutex, every interleaving of its callers, and who may release. */
module StateLock {
  import opened Common

  datatype Uri = Uri(name: string)

  datatype Plan = Plan(name: string)

  datatype Lock = Lock(uri: Uri, plan: Plan, acquiredAt: real, timeout: real, released: bool)

  predicate Expired(l: Lock, now: real) {
    now - l.acquiredAt > l.timeout
  }

  predicate Active(l: Lock, now: real) {
    !l.released && !Expired(l, now)
  }

  /** Every lock object ever issued, and which of them each resource currently maps to. */
  datatype Table = Table(locks: map<Uri, nat>, issued: seq<Lock>)

  ghost predicate WellFormed(t: Table) {
    forall u | u in t.locks :: t.locks[u] < |t.issued| && t.issued[t.locks[u]].uri == u
  }

  predicate Busy(t: Table, u: Uri, now: real)
    requires WellFormed(t)
  {
    u in t.locks && Active(t.issued[t.locks[u]], now)
  }

  function Insert(t: Table, u: Uri, p: Plan, timeout: real, now: real): Table {
    Table(t.locks[u := |t.issued|], t.issued + [Lock(u, p, now, timeout, false)])
  }

  function ReleaseObject(t: Table, i: nat): Table
    requires i < |t.issued|
  {
    t.(issued := t.issued[i := t.issued[i].(released := true)])
  }

  function ReleaseUri(t: Table, u: Uri): Table
    requires WellFormed(t)
  {
    if u in t.locks then ReleaseObject(t, t.locks[u]).(locks := t.locks - {u}) else t
  }

  /** Any lock object that is still active is the one its resource maps to. */
  ghost predicate Exclusive(t: Table, now: real) {
    forall i | 0 <= i < |t.issued| && Active(t.issued[i], now) ::
      t.issued[i].uri in t.locks && t.locks[t.issued[i].uri] == i
  }

  /** At most one lock object ever issued for a resource is active. */
  lemma AtMostOneActive(t: Table, now: real, i: nat, j: nat)
    requires Exclusive(t, now) && i < |t.issued| && j < |t.issued|
    requires Active(t.issued[i], now) && Active(t.issued[j], now) && t.issued[i].uri == t.issued[j].uri
    ensures i == j
  {
  }

  lemma InsertKeepsExclusive(t: Table, u: Uri, p: Plan, timeout: real, now: real)
    requires WellFormed(t) && Exclusive(t, now) && !Busy(t, u, now)
    ensures WellFormed(Insert(t, u, p, timeout, now)) && Exclusive(Insert(t, u, p, timeout, now), now)
  {
    var t' := Insert(t, u, p, timeout, now);
    forall i | 0 <= i < |t'.issued| && Active(t'.issued[i], now)
      ensures t'.issued[i].uri in t'.locks && t'.locks[t'.issued[i].uri] == i
    {
      if i < |t.issued| {
        assert t'.issued[i] == t.issued[i];
      }
    }
  }

  lemma ReleaseKeepsExclusive(t: Table, u: Uri, now: real)
    requires WellFormed(t) && Exclusive(t, now)
    ensures WellFormed(ReleaseUri(t, u)) && Exclusive(ReleaseUri(t, u), now)
    ensures !Busy(ReleaseUri(t, u), u, now)
  {
  }

  lemma ReleaseObjectKeepsExclusive(t: Table, i: nat, now: real)
    requires WellFormed(t) && Exclusive(t, now) && i < |t.issued|
    ensures WellFormed(ReleaseObject(t, i)) && Exclusive(ReleaseObject(t, i), now)
    ensures forall u | !Busy(t, u, now) :: !Busy(ReleaseObject(t, i), u, now)
  {
  }

  // -------------------------------------------------------------------------- the clock

  /** The registered lock of its resource. */
  ghost predicate Registered(t: Table, i: nat)
    requires i < |t.issued|
  {
    t.issued[i].uri in t.locks && t.locks[t.issued[i].uri] == i
  }

  function Expiry(l: Lock): real {
    l.acquiredAt + l.timeout
  }

  /** The wall clock may read anything above the expiry of every lock that was superseded and never released. */
  ghost predicate AboveSuperseded(t: Table, now: real) {
    forall i: nat | i < |t.issued| && !t.issued[i].released && !Registered(t, i) :: now > Expiry(t.issued[i])
  }

  /** Exclusion survives a clock reading exactly when it lies above that bound. */
  lemma ClockKeepsExclusiveIff(t: Table, now: real)
    ensures Exclusive(t, now) <==> AboveSuperseded(t, now)
  {
    if Exclusive(t, now) {
      forall i: nat | i < |t.issued| && !t.issued[i].released && !Registered(t, i) ensures now > Expiry(t.issued[i]) {
        assert !Active(t.issued[i], now);
      }
    }
  }

  /** A clock that steps back revives a superseded lock beside its successor. */
  lemma BackwardClockBreaksExclusion(u: Uri, a: Plan, b: Plan)
    ensures var t := Insert(Insert(Table(map[], []), u, a, 2.0, 0.0), u, b, 2.0, 3.0);
            && WellFormed(Insert(Table(map[], []), u, a, 2.0, 0.0))
            && !Busy(Insert(Table(map[], []), u, a, 2.0, 0.0), u, 3.0)
            && Exclusive(t, 3.0) && !Exclusive(t, 1.0)
            && Active(t.issued[0], 1.0) && Active(t.issued[1], 1.0)
  {
    var t := Insert(Insert(Table(map[], []), u, a, 2.0, 0.0), u, b, 2.0, 3.0);
    assert Active(t.issued[0], 1.0) && t.locks[u] == 1;
  }

  // ------------------------------------------------------------------- interleavings

  datatype Strategy = Wait | FailFast | Escalate

  datatype Config = Config(strategy: Strategy, lockTimeout: real, waitDeadline: real)

  datatype Result = Acquired(index: nat) | Conflict | LockedByOther | Released

  /** What a caller does after giving the mutex back. */
  datatype After = Return(result: Result) | Sleep(uri: Uri, plan: Plan, deadline: Option<real>)

  /** Where a caller is; a release remembers the lock it is meant for and when it was called. */
  datatype Pc =
    | Idle
    | Starting(uri: Uri, plan: Plan)
    | Checking(uri: Uri, plan: Plan, deadline: Option<real>)
    | Inserting(uri: Uri, plan: Plan)
    | Leaving(after: After)
    | Sleeping(uri: Uri, plan: Plan, until: real)
    | Polling(uri: Uri, plan: Plan, until: real)
    | WantsRelease(uri: Uri, mine: Option<nat>, calledAt: real)
    | Releasing(uri: Uri, mine: Option<nat>, calledAt: real)
    | Returned(result: Result)

  /** A caller, with how often it has taken and given the mutex. */
  datatype Caller = Caller(pc: Pc, taken: nat, given: nat)

  /**
   * `now` is the wall clock that locks expire by, `mono` the monotonic one that waits end by. `holder` says which
   * caller each lock object was issued to, `gaveBack` which of them a release was called for.
   */
  datatype State = State(
    now: real, mono: real, mutex: Option<nat>, table: Table, callers: map<nat, Caller>,
    holder: seq<nat>, gaveBack: set<nat>)

  predicate InMutex(pc: Pc) {
    pc.Checking? || pc.Inserting? || pc.Leaving? || pc.Releasing?
  }

  ghost predicate Inv(s: State) {
    && WellFormed(s.table) && Exclusive(s.table, s.now)
    && (forall c | c in s.callers :: InMutex(s.callers[c].pc) <==> s.mutex == Some(c))
    && (s.mutex.Some? ==> s.mutex.value in s.callers)
    && (forall c | c in s.callers ::
          s.callers[c].taken == s.callers[c].given + if InMutex(s.callers[c].pc) then 1 else 0)
    && (forall c | c in s.callers && s.callers[c].pc.Inserting? :: !Busy(s.table, s.callers[c].pc.uri, s.now))
    && |s.holder| == |s.table.issued| && (forall i | i in s.gaveBack :: i < |s.table.issued|)
  }

  /** What the check of `acquire` decides; `deadline` is set while polling. */
  function AfterCheck(cfg: Config, busy: bool, u: Uri, p: Plan, deadline: Option<real>): Pc {
    if !busy then Inserting(u, p)
    else if deadline.Some? || cfg.strategy.Wait? then Leaving(Sleep(u, p, deadline))
    else if cfg.strategy.FailFast? then Leaving(Return(Conflict))
    else Leaving(Return(LockedByOther))
  }

  function AfterLeave(cfg: Config, a: After, mono: real): Pc {
    match a
    case Return(r) => Returned(r)
    case Sleep(u, p, d) => Sleeping(u, p, if d.Some? then d.value else mono + cfg.waitDeadline)
  }

  ghost predicate Moves(s: State, s': State, c: nat, pc: Pc) {
    c in s.callers && s' == s.(callers := s.callers[c := s.callers[c].(pc := pc)])
  }

  /** Taking the mutex needs it to be free. */
  ghost predicate Takes(s: State, s': State, c: nat, pc: Pc) {
    && c in s.callers && s.mutex.None?
    && s' == s.(mutex := Some(c), callers := s.callers[c := Caller(pc, s.callers[c].taken + 1, s.callers[c].given)])
  }

  function Named(mine: Option<nat>): set<nat> {
    if mine.Some? then {mine.value} else {}
  }

  /** The call of `release(u)`, before it waits for the mutex; `mine` is the lock the caller means, if any. */
  ghost predicate CallsRelease(s: State, s': State, c: nat, u: Uri, mine: Option<nat>) {
    && c in s.callers && (mine.Some? ==> mine.value < |s.table.issued|)
    && s' == s.(callers := s.callers[c := s.callers[c].(pc := WantsRelease(u, mine, s.now))],
                gaveBack := s.gaveBack + Named(mine))
  }

  ghost predicate Inserts(cfg: Config, s: State, s': State, c: nat, u: Uri, p: Plan) {
    && c in s.callers
    && s' == s.(table := Insert(s.table, u, p, cfg.lockTimeout, s.now), holder := s.holder + [c],
                callers := s.callers[c := s.callers[c].(pc := Leaving(Return(Acquired(|s.table.issued|))))])
  }

  ghost predicate Releases(s: State, s': State, c: nat, u: Uri)
    requires WellFormed(s.table)
  {
    && c in s.callers
    && s' == s.(table := ReleaseUri(s.table, u),
                callers := s.callers[c := s.callers[c].(pc := Leaving(Return(Released)))])
  }

  ghost predicate Gives(s: State, s': State, c: nat, pc: Pc) {
    && c in s.callers
    && s' == s.(mutex := None, callers := s.callers[c := Caller(pc, s.callers[c].taken, s.callers[c].given + 1)])
  }

  ghost predicate CallerStep(cfg: Config, s: State, s': State, c: nat)
    requires WellFormed(s.table)
  {
    c in s.callers &&
    match s.callers[c].pc
    case Idle =>
      || (exists u, p :: Moves(s, s', c, Starting(u, p)))
      || (exists u, mine :: CallsRelease(s, s', c, u, mine))
    case Starting(u, p) => Takes(s, s', c, Checking(u, p, None))
    case Checking(u, p, d) => Moves(s, s', c, AfterCheck(cfg, Busy(s.table, u, s.now), u, p, d))
    case Inserting(u, p) => Inserts(cfg, s, s', c, u, p)
    case Leaving(a) => Gives(s, s', c, AfterLeave(cfg, a, s.mono))
    case Sleeping(u, p, d) => Moves(s, s', c, if s.mono < d then Polling(u, p, d) else Returned(LockedByOther))
    case Polling(u, p, d) => Takes(s, s', c, Checking(u, p, Some(d)))
    case WantsRelease(u, mine, at) => Takes(s, s', c, Releasing(u, mine, at))
    case Releasing(u, mine, at) => Releases(s, s', c, u)
    case Returned(r) => Moves(s, s', c, Idle)
  }

  /** The monotonic clock never goes back; the wall clock may be set to anything. */
  ghost predicate Ticks(s: State, s': State) {
    s'.mono >= s.mono && s' == s.(now := s'.now, mono := s'.mono)
  }

  /** Someone calls `release` on a lock object directly. */
  ghost predicate ReleasesObject(s: State, s': State, i: nat) {
    i < |s.table.issued| && s' == s.(table := ReleaseObject(s.table, i))
  }

  ghost predicate Next(cfg: Config, s: State, s': State)
    requires WellFormed(s.table)
  {
    (exists c :: CallerStep(cfg, s, s', c)) || Ticks(s, s') || (exists i: nat :: ReleasesObject(s, s', i))
  }

  // ----------------------------------------------------------------------- lock objects

  /** The lock that a caller between check and insert found expired or released. */
  ghost predicate Awaited(s: State, i: nat)
    requires i < |s.table.issued|
  {
    exists c | c in s.callers :: s.callers[c].pc.Inserting? && s.callers[c].pc.uri == s.table.issued[i].uri
  }

  /** The bound on the wall clock: above the expiry of superseded locks, and of one about to be superseded. */
  ghost predicate ClockOk(s: State, now: real) {
    forall i: nat | i < |s.table.issued| && !s.table.issued[i].released && (!Registered(s.table, i) || Awaited(s, i)) ::
      now > Expiry(s.table.issued[i])
  }

  /** A tick keeps the invariant exactly when the new reading is above the bound. */
  lemma TickKeepsInvIff(s: State, s': State)
    requires Inv(s) && Ticks(s, s')
    ensures Inv(s') <==> ClockOk(s, s'.now)
  {
    ClockKeepsExclusiveIff(s.table, s'.now);
    if Inv(s') {
      forall i: nat | i < |s.table.issued| && !s.table.issued[i].released && (!Registered(s.table, i) || Awaited(s, i))
        ensures s'.now > Expiry(s.table.issued[i])
      {
        if Registered(s.table, i) {
          var c :| c in s.callers && s.callers[c].pc.Inserting? && s.callers[c].pc.uri == s.table.issued[i].uri;
          assert !Busy(s'.table, s'.callers[c].pc.uri, s'.now);
        }
      }
    }
    if ClockOk(s, s'.now) {
      forall c | c in s'.callers && s'.callers[c].pc.Inserting? ensures !Busy(s'.table, s'.callers[c].pc.uri, s'.now) {
        var u := s'.callers[c].pc.uri;
        if u in s.table.locks {
          assert Awaited(s, s.table.locks[u]);
        }
      }
    }
  }

  /** A clock that does not go back is always above it. */
  lemma ForwardClockIsOk(s: State, now: real)
    requires Inv(s) && now >= s.now
    ensures ClockOk(s, now)
  {
    ClockKeepsExclusiveIff(s.table, s.now);
    forall i: nat | i < |s.table.issued| && !s.table.issued[i].released && (!Registered(s.table, i) || Awaited(s, i))
      ensures now > Expiry(s.table.issued[i])
    {
      if Registered(s.table, i) {
        var c :| c in s.callers && s.callers[c].pc.Inserting? && s.callers[c].pc.uri == s.table.issued[i].uri;
        assert !Busy(s.table, s.callers[c].pc.uri, s.now);
      }
    }
  }

  /** A caller that keeps its side of the mutex, with the same table or one that frees no caller's check. */
  lemma StayKeepsInv(s: State, s': State, c: nat, pc: Pc)
    requires Inv(s) && c in s.callers && InMutex(pc) == InMutex(s.callers[c].pc)
    requires s' == s.(table := s'.table, holder := s'.holder, gaveBack := s'.gaveBack,
                      callers := s.callers[c := s.callers[c].(pc := pc)])
    requires WellFormed(s'.table) && Exclusive(s'.table, s.now) && (InMutex(pc) || s'.table == s.table)
    requires pc.Inserting? ==> !Busy(s'.table, pc.uri, s.now)
    requires |s'.holder| == |s'.table.issued| && forall i | i in s'.gaveBack :: i < |s'.table.issued|
    ensures Inv(s')
  {
  }

  lemma TakeKeepsInv(s: State, s': State, c: nat, pc: Pc)
    requires Inv(s) && Takes(s, s', c, pc) && InMutex(pc) && !pc.Inserting? && !InMutex(s.callers[c].pc)
    ensures Inv(s')
  {
  }

  lemma GiveKeepsInv(s: State, s': State, c: nat, pc: Pc)
    requires Inv(s) && Gives(s, s', c, pc) && InMutex(s.callers[c].pc) && !InMutex(pc)
    ensures Inv(s')
  {
  }

  lemma CallerStepKeepsInv(cfg: Config, s: State, s': State, c: nat)
    requires Inv(s) && CallerStep(cfg, s, s', c)
    ensures Inv(s')
  {
    match s.callers[c].pc
    case Inserting(u, p) =>
      InsertKeepsExclusive(s.table, u, p, cfg.lockTimeout, s.now);
      StayKeepsInv(s, s', c, s'.callers[c].pc);
    case Releasing(u, mine, at) =>
      ReleaseKeepsExclusive(s.table, u, s.now);
      StayKeepsInv(s, s', c, s'.callers[c].pc);
    case Starting(u, p) => TakeKeepsInv(s, s', c, Checking(u, p, None));
    case Polling(u, p, d) => TakeKeepsInv(s, s', c, Checking(u, p, Some(d)));
    case WantsRelease(u, mine, at) => TakeKeepsInv(s, s', c, Releasing(u, mine, at));
    case Leaving(a) => GiveKeepsInv(s, s', c, AfterLeave(cfg, a, s.mono));
    case _ => StayKeepsInv(s, s', c, s'.callers[c].pc);
  }

  lemma ObjectReleaseKeepsInv(s: State, s': State, i: nat)
    requires Inv(s) && ReleasesObject(s, s', i)
    ensures Inv(s')
  {
    ReleaseObjectKeepsExclusive(s.table, i, s.now);
  }

  /** Every step whose clock reading is above the bound keeps the invariant. */
  lemma NextKeepsInv(cfg: Config, s: State, s': State)
    requires Inv(s) && Next(cfg, s, s') && ClockOk(s, s'.now)
    ensures Inv(s')
  {
    if c :| CallerStep(cfg, s, s', c) {
      CallerStepKeepsInv(cfg, s, s', c);
    } else if Ticks(s, s') {
      TickKeepsInvIff(s, s');
    } else {
      var i: nat :| ReleasesObject(s, s', i);
      ObjectReleaseKeepsInv(s, s', i);
    }
  }

  ghost predicate Initial(s: State) {
    && s.mutex.None? && s.table == Table(map[], []) && s.holder == [] && s.gaveBack == {}
    && forall c | c in s.callers :: s.callers[c] == Caller(Idle, 0, 0)
  }

  ghost predicate IsRun(cfg: Config, states: seq<State>) {
    && states != [] && Initial(states[0])
    && forall i, j | 0 <= i && j == i + 1 < |states| :: WellFormed(states[i].table) && Next(cfg, states[i], states[j])
  }

  /** Every clock reading of the run is above the bound of the state before it. */
  ghost predicate ClockAbove(states: seq<State>) {
    forall i, j | 0 <= i && j == i + 1 < |states| :: ClockOk(states[i], states[j].now)
  }

  ghost predicate NeverBack(states: seq<State>) {
    forall i, j | 0 <= i && j == i + 1 < |states| :: states[i].now <= states[j].now
  }

  lemma {:induction false} RunKeepsInv(cfg: Config, states: seq<State>, k: nat)
    requires IsRun(cfg, states) && ClockAbove(states) && k < |states|
    ensures Inv(states[k])
    decreases k
  {
    if k > 0 {
      RunKeepsInv(cfg, states, k - 1);
      NextKeepsInv(cfg, states[k - 1], states[k]);
    }
  }

  /** Runs whose wall clock never goes back need no further assumption. */
  lemma {:induction false} ForwardRunKeepsInv(cfg: Config, states: seq<State>, k: nat)
    requires IsRun(cfg, states) && NeverBack(states) && k < |states|
    ensures Inv(states[k])
    decreases k
  {
    if k > 0 {
      ForwardRunKeepsInv(cfg, states, k - 1);
      ForwardClockIsOk(states[k - 1], states[k].now);
      NextKeepsInv(cfg, states[k - 1], states[k]);
    }
  }

  ghost predicate Safe(s: State) {
    && (forall i, j | 0 <= i < |s.table.issued| && 0 <= j < |s.table.issued|
          && Active(s.table.issued[i], s.now) && Active(s.table.issued[j], s.now)
          && s.table.issued[i].uri == s.table.issued[j].uri :: i == j)
    && (forall c, d | c in s.callers && d in s.callers && InMutex(s.callers[c].pc) && InMutex(s.callers[d].pc) ::
          c == d)
    && (forall c | c in s.callers && !InMutex(s.callers[c].pc) :: s.callers[c].taken == s.callers[c].given)
    && WellFormed(s.table)
    && (forall c | c in s.callers && s.callers[c].pc.Inserting? :: !Busy(s.table, s.callers[c].pc.uri, s.now))
  }

  lemma InvIsSafe(s: State)
    requires Inv(s)
    ensures Safe(s)
  {
    forall i, j | 0 <= i < |s.table.issued| && 0 <= j < |s.table.issued|
      && Active(s.table.issued[i], s.now) && Active(s.table.issued[j], s.now)
      && s.table.issued[i].uri == s.table.issued[j].uri
      ensures i == j
    {
      AtMostOneActive(s.table, s.now, i, j);
    }
  }

  /**
   * In every state of every interleaving whose wall clock stays above the bound, or never goes back: at most one
   * lock object ever issued for a resource is active, at most one caller is inside the mutex, a caller about to
   * insert still finds the resource free, and a caller outside the mutex has given it back as often as it took it.
   */
  lemma RunIsSafe(cfg: Config, states: seq<State>, k: nat)
    requires IsRun(cfg, states) && (ClockAbove(states) || NeverBack(states)) && k < |states|
    ensures Safe(states[k])
  {
    if ClockAbove(states) {
      RunKeepsInv(cfg, states, k);
    } else {
      ForwardRunKeepsInv(cfg, states, k);
    }
    InvIsSafe(states[k]);
  }

  // ------------------------------------------------------------------- what acquire returns

  /** What a result means: whose lock it is, or under which strategy a held resource is answered so. */
  ghost predicate ResultOk(cfg: Config, s: State, c: nat, r: Result) {
    match r
    case Acquired(i) => i < |s.holder| && s.holder[i] == c
    case Conflict => cfg.strategy == FailFast
    case LockedByOther => cfg.strategy == Escalate || cfg.strategy == Wait
    case Released => true
  }

  /** Only a waiting caller sleeps and polls. */
  ghost predicate PlaceOk(cfg: Config, s: State, c: nat, pc: Pc) {
    match pc
    case Checking(_, _, Some(_)) => cfg.strategy == Wait
    case Leaving(Sleep(_, _, _)) => cfg.strategy == Wait
    case Sleeping(_, _, _) => cfg.strategy == Wait
    case Polling(_, _, _) => cfg.strategy == Wait
    case Leaving(Return(r)) => ResultOk(cfg, s, c, r) && (r == LockedByOther ==> cfg.strategy == Escalate)
    case Returned(r) => ResultOk(cfg, s, c, r)
    case _ => true
  }

  ghost predicate ResultsOk(cfg: Config, s: State) {
    |s.holder| == |s.table.issued| && forall c | c in s.callers :: PlaceOk(cfg, s, c, s.callers[c].pc)
  }

  lemma StepKeepsResults(cfg: Config, s: State, s': State, c: nat)
    requires WellFormed(s.table) && CallerStep(cfg, s, s', c) && ResultsOk(cfg, s)
    ensures ResultsOk(cfg, s')
  {
    assert PlaceOk(cfg, s, c, s.callers[c].pc);
    forall d | d in s'.callers ensures PlaceOk(cfg, s', d, s'.callers[d].pc) {
      if d != c {
        assert PlaceOk(cfg, s, d, s.callers[d].pc);
      }
    }
  }

  /** Over every run, whatever the clock does: each result was earned, and sleeping is left to waiting callers. */
  lemma {:induction false} RunResultsOk(cfg: Config, states: seq<State>, k: nat)
    requires IsRun(cfg, states) && k < |states|
    ensures ResultsOk(cfg, states[k])
    decreases k
  {
    if k > 0 {
      RunResultsOk(cfg, states, k - 1);
      var s, s' := states[k - 1], states[k];
      assert WellFormed(s.table) && Next(cfg, s, s');
      if c :| CallerStep(cfg, s, s', c) {
        StepKeepsResults(cfg, s, s', c);
      } else {
        QuietKeepsResults(cfg, s, s');
      }
    }
  }

  lemma QuietKeepsResults(cfg: Config, s: State, s': State)
    requires ResultsOk(cfg, s) && (Ticks(s, s') || exists i: nat :: ReleasesObject(s, s', i))
    ensures ResultsOk(cfg, s')
  {
    forall d | d in s'.callers ensures PlaceOk(cfg, s', d, s'.callers[d].pc) {
      assert PlaceOk(cfg, s, d, s.callers[d].pc);
    }
  }

  /**
   * The decisions of `acquire`: a check inserts exactly when the resource is not held, and otherwise answers by the
   * strategy; a wait lasts from the first refusal for the configured time and then gives up.
   */
  lemma AcquireDecides(cfg: Config, s: State, s': State, c: nat)
    requires WellFormed(s.table) && c in s.callers && CallerStep(cfg, s, s', c) && c in s'.callers
    ensures s.callers[c].pc.Checking? ==>
              var u, next := s.callers[c].pc.uri, s'.callers[c].pc;
              var held := u in s.table.locks && Holds(s.table.issued[s.table.locks[u]], s.now);
              && (next.Inserting? <==> !held)
              && (held && s.callers[c].pc.deadline.None? ==>
                  match cfg.strategy
                  case FailFast => next == Leaving(Return(Conflict))
                  case Escalate => next == Leaving(Return(LockedByOther))
                  case Wait => next == Leaving(Sleep(u, s.callers[c].pc.plan, None)))
    ensures s.callers[c].pc.Leaving? && s.callers[c].pc.after.Sleep? && s.callers[c].pc.after.deadline.None? ==>
              s'.callers[c].pc.Sleeping? && s'.callers[c].pc.until == s.mono + cfg.waitDeadline
    ensures s.callers[c].pc.Sleeping? ==>
              (s'.callers[c].pc == Returned(LockedByOther) <==> s.mono >= s.callers[c].pc.until)
  {
  }

  // ------------------------------------------------------------------------- holders

  /** A holder goes on believing in its lock until it expires or it calls release for it. */
  ghost predicate Believes(s: State, i: nat) {
    i < |s.table.issued| && !Expired(s.table.issued[i], s.now) && i !in s.gaveBack
  }

  /** Every believed lock is really active. */
  ghost predicate BeliefsHold(s: State) {
    forall i: nat | Believes(s, i) :: Active(s.table.issued[i], s.now)
  }

  /** Two holders never believe in the same resource at once. */
  lemma BelieversAreExclusive(s: State, i: nat, j: nat)
    requires Inv(s) && BeliefsHold(s) && Believes(s, i) && Believes(s, j)
    requires s.table.issued[i].uri == s.table.issued[j].uri
    ensures i == j
  {
    AtMostOneActive(s.table, s.now, i, j);
  }

  /** When it executes, a release keeps every belief true exactly when the lock it hits is believed in by nobody. */
  lemma ReleaseKeepsBeliefsIff(s: State, s': State, c: nat, u: Uri)
    requires Inv(s) && BeliefsHold(s) && Releases(s, s', c, u)
    ensures BeliefsHold(s') <==> (u in s.table.locks ==> !Believes(s, s.table.locks[u]))
  {
    if u in s.table.locks && Believes(s, s.table.locks[u]) {
      assert Believes(s', s.table.locks[u]);
    }
    forall i: nat | Believes(s', i) && !(u in s.table.locks && i == s.table.locks[u])
      ensures Active(s'.table.issued[i], s'.now)
    {
      assert Believes(s, i) && s'.table.issued[i] == s.table.issued[i];
    }
  }

  /** Releasing a lock object directly keeps beliefs true exactly when nobody believes in it. */
  lemma ObjectReleaseKeepsBeliefsIff(s: State, s': State, i: nat)
    requires BeliefsHold(s) && ReleasesObject(s, s', i)
    ensures BeliefsHold(s') <==> !Believes(s, i)
  {
    if Believes(s, i) {
      assert Believes(s', i);
    }
    forall k: nat | Believes(s', k) && k != i ensures Active(s'.table.issued[k], s'.now) {
      assert Believes(s, k) && s'.table.issued[k] == s.table.issued[k];
    }
  }

  /** A caller that has called release and not yet executed it. */
  ghost predicate Pending(pc: Pc) {
    pc.WantsRelease? || pc.Releasing?
  }

  /** A pending release names a lock of its resource that nobody else is releasing and that is active unless expired. */
  ghost predicate PendingOk(s: State) {
    && (forall c | c in s.callers && Pending(s.callers[c].pc) && s.callers[c].pc.mine.Some? ::
          var i := s.callers[c].pc.mine.value;
          && i < |s.table.issued| && i in s.gaveBack && s.table.issued[i].uri == s.callers[c].pc.uri
          && (Expired(s.table.issued[i], s.now) || Active(s.table.issued[i], s.now)))
    && (forall c, d | c in s.callers && d in s.callers && c != d && Pending(s.callers[c].pc) && Pending(s.callers[d].pc)
          && s.callers[c].pc.mine.Some? :: s.callers[c].pc.mine != s.callers[d].pc.mine)
  }

  ghost predicate Sound(s: State) {
    Inv(s) && BeliefsHold(s) && PendingOk(s)
  }

  /** A caller calls release only for a lock that was issued to it, that it still believes in, by its resource. */
  ghost predicate OwnCall(s: State, c: nat, u: Uri, mine: Option<nat>) {
    && mine.Some? && Believes(s, mine.value) && s.table.issued[mine.value].uri == u
    && |s.holder| == |s.table.issued| && s.holder[mine.value] == c
  }

  ghost predicate CallsOwn(s: State, s': State) {
    forall c | c in s.callers && c in s'.callers && s.callers[c].pc.Idle? && s'.callers[c].pc.WantsRelease? ::
      OwnCall(s, c, s'.callers[c].pc.uri, s'.callers[c].pc.mine)
  }

  /** A release executes while the lock it is meant for has not expired. */
  ghost predicate Timely(s: State, s': State) {
    forall c | c in s.callers && c in s'.callers && s.callers[c].pc.Releasing? && s'.callers[c].pc.Leaving? ::
      && s.callers[c].pc.mine.Some? && s.callers[c].pc.mine.value < |s.table.issued|
      && !Expired(s.table.issued[s.callers[c].pc.mine.value], s.now)
  }

  /** Nobody releases an active lock object behind the table's back. */
  ghost predicate NoActiveObjectReleased(s: State, s': State) {
    s'.callers == s.callers ==>
      forall i: nat | i < |s.table.issued| && i < |s'.table.issued| && Active(s.table.issued[i], s.now) ::
        !s'.table.issued[i].released
  }

  ghost predicate Disciplined(s: State, s': State) {
    s.now <= s'.now && CallsOwn(s, s') && Timely(s, s') && NoActiveObjectReleased(s, s')
  }

  /** Beliefs and pending releases depend on the table, the clock and the callers' pending calls only. */
  lemma UnchangedIsSound(s: State, s': State)
    requires Sound(s) && Inv(s') && s'.table == s.table && s'.now == s.now && s'.gaveBack == s.gaveBack
    requires forall c | c in s'.callers && Pending(s'.callers[c].pc) ::
               c in s.callers && Pending(s.callers[c].pc) && s'.callers[c].pc.mine == s.callers[c].pc.mine
               && s'.callers[c].pc.uri == s.callers[c].pc.uri
    ensures Sound(s')
  {
    forall i: nat | Believes(s', i) ensures Active(s'.table.issued[i], s'.now) {
      assert Believes(s, i);
    }
  }

  lemma CallIsSound(s: State, s': State, c: nat, u: Uri, mine: Option<nat>)
    requires Sound(s) && Inv(s') && CallsRelease(s, s', c, u, mine) && OwnCall(s, c, u, mine)
    ensures Sound(s')
  {
    assert Believes(s, mine.value);
    forall i: nat | Believes(s', i) ensures Active(s'.table.issued[i], s'.now) {
      assert Believes(s, i);
    }
  }

  lemma InsertIsSound(cfg: Config, s: State, s': State, c: nat, u: Uri, p: Plan)
    requires Sound(s) && Inv(s') && Inserts(cfg, s, s', c, u, p)
    ensures Sound(s')
  {
    forall i: nat | Believes(s', i) ensures Active(s'.table.issued[i], s'.now) {
      if i < |s.table.issued| {
        assert Believes(s, i);
      }
    }
  }

  /** A timely release hits the lock it is meant for. */
  lemma TimelyReleaseHitsItsLock(s: State, c: nat)
    requires Sound(s) && c in s.callers && s.callers[c].pc.Releasing? && s.callers[c].pc.mine.Some?
    requires !Expired(s.table.issued[s.callers[c].pc.mine.value], s.now)
    ensures s.callers[c].pc.uri in s.table.locks && s.table.locks[s.callers[c].pc.uri] == s.callers[c].pc.mine.value
  {
  }

  lemma ReleaseIsSound(s: State, s': State, c: nat)
    requires Sound(s) && Inv(s') && c in s.callers && s.callers[c].pc.Releasing? && s.callers[c].pc.mine.Some?
    requires !Expired(s.table.issued[s.callers[c].pc.mine.value], s.now)
    requires Releases(s, s', c, s.callers[c].pc.uri)
    ensures Sound(s')
  {
    TimelyReleaseHitsItsLock(s, c);
    ReleaseKeepsBeliefsIff(s, s', c, s.callers[c].pc.uri);
  }

  lemma TickIsSound(s: State, s': State)
    requires Sound(s) && Inv(s') && Ticks(s, s') && s.now <= s'.now
    ensures Sound(s')
  {
    forall i: nat | Believes(s', i) ensures Active(s'.table.issued[i], s'.now) {
      assert Believes(s, i);
    }
  }

  lemma ObjectReleaseIsSound(s: State, s': State, i: nat)
    requires Sound(s) && Inv(s') && ReleasesObject(s, s', i) && NoActiveObjectReleased(s, s')
    ensures Sound(s')
  {
    assert !Active(s.table.issued[i], s.now);
    ObjectReleaseKeepsBeliefsIff(s, s', i);
  }

  lemma IdleStepIsSound(s: State, s': State, c: nat)
    requires Sound(s) && Inv(s') && c in s.callers && s.callers[c].pc.Idle? && CallsOwn(s, s')
    requires (exists u, p :: Moves(s, s', c, Starting(u, p))) || (exists u, mine :: CallsRelease(s, s', c, u, mine))
    ensures Sound(s')
  {
    if u, mine :| CallsRelease(s, s', c, u, mine) {
      assert s'.callers[c].pc == WantsRelease(u, mine, s.now);
      CallIsSound(s, s', c, u, mine);
    } else {
      UnchangedIsSound(s, s');
    }
  }

  /** Steps that touch neither the table nor a pending release. */
  lemma QuietStepIsSound(cfg: Config, s: State, s': State, c: nat)
    requires Sound(s) && Inv(s') && CallerStep(cfg, s, s', c)
    requires !s.callers[c].pc.Idle? && !s.callers[c].pc.Inserting? && !s.callers[c].pc.Releasing?
    ensures Sound(s')
  {
    UnchangedIsSound(s, s');
  }

  lemma CallerStepIsSound(cfg: Config, s: State, s': State, c: nat)
    requires Sound(s) && Inv(s') && CallerStep(cfg, s, s', c) && CallsOwn(s, s') && Timely(s, s')
    ensures Sound(s')
  {
    match s.callers[c].pc
    case Idle => IdleStepIsSound(s, s', c);
    case Inserting(u, p) => InsertIsSound(cfg, s, s', c, u, p);
    case Releasing(u, mine, at) => ReleaseIsSound(s, s', c);
    case _ => QuietStepIsSound(cfg, s, s', c);
  }

  lemma DisciplinedStepIsSound(cfg: Config, s: State, s': State)
    requires Sound(s) && Next(cfg, s, s') && Disciplined(s, s')
    ensures Sound(s')
  {
    ForwardClockIsOk(s, s'.now);
    NextKeepsInv(cfg, s, s');
    if c :| CallerStep(cfg, s, s', c) {
      CallerStepIsSound(cfg, s, s', c);
    } else if Ticks(s, s') {
      TickIsSound(s, s');
    } else {
      var i: nat :| ReleasesObject(s, s', i);
      ObjectReleaseIsSound(s, s', i);
    }
  }

  ghost predicate DisciplinedRun(cfg: Config, states: seq<State>) {
    IsRun(cfg, states) && forall i, j | 0 <= i && j == i + 1 < |states| :: Disciplined(states[i], states[j])
  }

  lemma {:induction false} DisciplinedRunIsSound(cfg: Config, states: seq<State>, k: nat)
    requires DisciplinedRun(cfg, states) && k < |states|
    ensures Sound(states[k])
    decreases k
  {
    if k > 0 {
      DisciplinedRunIsSound(cfg, states, k - 1);
      DisciplinedStepIsSound(cfg, states[k - 1], states[k]);
    }
  }

  /**
   * Over every interleaving in which holders call release only for their own believed locks and each release
   * executes before that lock expires, no two holders ever believe in one resource and every belief is true.
   */
  lemma DisciplinedHoldersAreExclusive(cfg: Config, states: seq<State>, k: nat, i: nat, j: nat)
    requires DisciplinedRun(cfg, states) && k < |states| && Believes(states[k], i) && Believes(states[k], j)
    requires states[k].table.issued[i].uri == states[k].table.issued[j].uri
    ensures i == j && Active(states[k].table.issued[i], states[k].now)
  {
    DisciplinedRunIsSound(cfg, states, k);
    BelieversAreExclusive(states[k], i, j);
  }

  // ---------------------------------------------------------- what a caller can check beforehand

  /** Every release call leaves its lock at least `wait` to live. */
  ghost predicate CallsWithRoom(s: State, s': State, wait: real) {
    forall c | c in s.callers && c in s'.callers && s.callers[c].pc.Idle? && s'.callers[c].pc.WantsRelease? ::
      && OwnCall(s, c, s'.callers[c].pc.uri, s'.callers[c].pc.mine)
      && Expiry(s.table.issued[s'.callers[c].pc.mine.value]) >= s.now + wait
  }

  /** Every release executes within `wait` of its call. */
  ghost predicate Prompt(s: State, s': State, wait: real) {
    forall c | c in s.callers && c in s'.callers && s.callers[c].pc.Releasing? && s'.callers[c].pc.Leaving? ::
      s.now <= s.callers[c].pc.calledAt + wait
  }

  ghost predicate PendingRoom(s: State, wait: real) {
    forall c | c in s.callers && Pending(s.callers[c].pc) ::
      && s.callers[c].pc.mine.Some? && s.callers[c].pc.mine.value < |s.table.issued|
      && Expiry(s.table.issued[s.callers[c].pc.mine.value]) >= s.callers[c].pc.calledAt + wait
  }

  ghost predicate Careful(s: State, s': State, wait: real) {
    s.now <= s'.now && CallsWithRoom(s, s', wait) && Prompt(s, s', wait) && NoActiveObjectReleased(s, s')
  }

  ghost predicate CarefulRun(cfg: Config, states: seq<State>, wait: real) {
    IsRun(cfg, states) && forall i, j | 0 <= i && j == i + 1 < |states| :: Careful(states[i], states[j], wait)
  }

  /** Lock objects are only ever added or marked released. */
  ghost predicate IssuedKept(t: Table, t': Table) {
    |t.issued| <= |t'.issued| && forall i: nat | i < |t.issued| :: Expiry(t'.issued[i]) == Expiry(t.issued[i])
  }

  lemma NextKeepsIssued(cfg: Config, s: State, s': State)
    requires WellFormed(s.table) && Next(cfg, s, s')
    ensures IssuedKept(s.table, s'.table)
  {
    if c :| CallerStep(cfg, s, s', c) {
    } else if Ticks(s, s') {
    } else {
      var i: nat :| ReleasesObject(s, s', i);
    }
  }

  lemma CarefulIsDisciplined(s: State, s': State, wait: real)
    requires PendingRoom(s, wait) && Careful(s, s', wait)
    ensures Disciplined(s, s')
  {
  }

  /** A pending release was pending before, with the same data, or is a call made in this step. */
  ghost predicate Continues(s: State, pc: Pc, pc': Pc)
    requires Pending(pc')
  {
    || (Pending(pc) && pc'.mine == pc.mine && pc'.calledAt == pc.calledAt)
    || (pc.Idle? && pc'.WantsRelease? && pc'.calledAt == s.now)
  }

  lemma PendingComesFromCaller(cfg: Config, s: State, s': State, c: nat, d: nat)
    requires WellFormed(s.table) && CallerStep(cfg, s, s', d) && c in s'.callers && Pending(s'.callers[c].pc)
    ensures c in s.callers && Continues(s, s.callers[c].pc, s'.callers[c].pc)
  {
    if c != d {
      assert s'.callers[c] == s.callers[c];
    }
  }

  lemma PendingComesFrom(cfg: Config, s: State, s': State, c: nat)
    requires WellFormed(s.table) && Next(cfg, s, s') && c in s'.callers && Pending(s'.callers[c].pc)
    ensures c in s.callers && Continues(s, s.callers[c].pc, s'.callers[c].pc)
  {
    if d :| CallerStep(cfg, s, s', d) {
      PendingComesFromCaller(cfg, s, s', c, d);
    } else {
      assert s'.callers == s.callers;
    }
  }

  lemma CarefulKeepsRoom(cfg: Config, s: State, s': State, wait: real)
    requires WellFormed(s.table) && Next(cfg, s, s') && PendingRoom(s, wait) && Careful(s, s', wait)
    ensures PendingRoom(s', wait)
  {
    NextKeepsIssued(cfg, s, s');
    forall c | c in s'.callers && Pending(s'.callers[c].pc)
      ensures s'.callers[c].pc.mine.Some? && s'.callers[c].pc.mine.value < |s'.table.issued|
      ensures Expiry(s'.table.issued[s'.callers[c].pc.mine.value]) >= s'.callers[c].pc.calledAt + wait
    {
      PendingComesFrom(cfg, s, s', c);
    }
  }

  lemma CarefulStepIsSound(cfg: Config, s: State, s': State, wait: real)
    requires Sound(s) && PendingRoom(s, wait) && Next(cfg, s, s') && Careful(s, s', wait)
    ensures Sound(s') && PendingRoom(s', wait)
  {
    CarefulIsDisciplined(s, s', wait);
    DisciplinedStepIsSound(cfg, s, s');
    CarefulKeepsRoom(cfg, s, s', wait);
  }

  lemma {:induction false} CarefulRunIsSound(cfg: Config, states: seq<State>, wait: real, k: nat)
    requires CarefulRun(cfg, states, wait) && k < |states|
    ensures Sound(states[k]) && PendingRoom(states[k], wait)
    decreases k
  {
    if k > 0 {
      CarefulRunIsSound(cfg, states, wait, k - 1);
      CarefulStepIsSound(cfg, states[k - 1], states[k], wait);
    }
  }

  /**
   * What a holder can check before it calls: when every release call leaves its lock at least as long to live as
   * a release ever waits for the mutex, no two holders believe in one resource and every belief is true.
   */
  lemma CarefulHoldersAreExclusive(cfg: Config, states: seq<State>, wait: real, k: nat, i: nat, j: nat)
    requires CarefulRun(cfg, states, wait) && k < |states| && Believes(states[k], i) && Believes(states[k], j)
    requires states[k].table.issued[i].uri == states[k].table.issued[j].uri
    ensures i == j && Active(states[k].table.issued[i], states[k].now)
  {
    CarefulRunIsSound(cfg, states, wait, k);
    BelieversAreExclusive(states[k], i, j);
  }

  // -------------------------------------------------------------------------------- the race

  /** A run so far in which every release was called for an own, believed lock. */
  ghost predicate OwnRun(cfg: Config, states: seq<State>) {
    && IsRun(cfg, states) && NeverBack(states)
    && forall i, j | 0 <= i && j == i + 1 < |states| :: CallsOwn(states[i], states[j])
  }

  ghost function Last(states: seq<State>): State
    requires states != []
  {
    states[|states| - 1]
  }

  lemma OneMoreState(cfg: Config, states: seq<State>, s': State)
    requires OwnRun(cfg, states) && WellFormed(Last(states).table) && Next(cfg, Last(states), s')
    requires Last(states).now <= s'.now && CallsOwn(Last(states), s')
    ensures OwnRun(cfg, states + [s']) && Last(states + [s']) == s'
  {
    var more := states + [s'];
    forall i, j | 0 <= i && j == i + 1 < |more|
      ensures WellFormed(more[i].table) && Next(cfg, more[i], more[j])
      ensures more[i].now <= more[j].now && CallsOwn(more[i], more[j])
    {
      if j < |states| {
        assert more[i] == states[i] && more[j] == states[j];
      }
    }
    assert more[0] == states[0];
    assert IsRun(cfg, more);
    assert NeverBack(more);
  }

  ghost function With(s: State, c: nat, pc: Pc): State
    requires c in s.callers
  {
    s.(callers := s.callers[c := s.callers[c].(pc := pc)])
  }

  ghost function Taking(s: State, c: nat, pc: Pc): State
    requires c in s.callers
  {
    s.(mutex := Some(c), callers := s.callers[c := Caller(pc, s.callers[c].taken + 1, s.callers[c].given)])
  }

  ghost function Giving(s: State, c: nat, pc: Pc): State
    requires c in s.callers
  {
    s.(mutex := None, callers := s.callers[c := Caller(pc, s.callers[c].taken, s.callers[c].given + 1)])
  }

  /** One step of one caller that calls no release. */
  lemma CallerMoves(cfg: Config, states: seq<State>, c: nat, s': State)
    requires OwnRun(cfg, states) && WellFormed(Last(states).table) && CallerStep(cfg, Last(states), s', c)
    requires s'.now == Last(states).now && !s'.callers[c].pc.WantsRelease?
    requires forall d | d in s'.callers && d != c ::
        d in Last(states).callers && s'.callers[d] == Last(states).callers[d]
    ensures OwnRun(cfg, states + [s']) && Last(states + [s']) == s'
  {
    OneMoreState(cfg, states, s');
  }

  ghost predicate Free(s: State, c: nat, u: Uri) {
    && s.mutex.None? && WellFormed(s.table) && !Busy(s.table, u, s.now)
    && c in s.callers && s.callers[c].pc.Idle?
  }

  /** An undisturbed acquire of a free resource: the state after it and the run that leads there. */
  lemma AcquireRun(cfg: Config, states: seq<State>, c: nat, u: Uri, p: Plan) returns (more: seq<State>)
    requires OwnRun(cfg, states) && Free(Last(states), c, u)
    ensures OwnRun(cfg, more) && more != []
    ensures var s, s' := Last(states), Last(more);
            && s'.table == Insert(s.table, u, p, cfg.lockTimeout, s.now) && s'.holder == s.holder + [c]
            && s'.now == s.now && s'.mutex.None? && s'.gaveBack == s.gaveBack
            && s'.callers.Keys == s.callers.Keys && s'.callers[c].pc == Returned(Acquired(|s.table.issued|))
            && forall d | d in s.callers && d != c :: s'.callers[d] == s.callers[d]
  {
    var s := Last(states);
    var s1 := With(s, c, Starting(u, p));
    assert Moves(s, s1, c, Starting(u, p));
    CallerMoves(cfg, states, c, s1);
    more := states + [s1];
    var s2 := Taking(s1, c, Checking(u, p, None));
    assert Takes(s1, s2, c, Checking(u, p, None));
    CallerMoves(cfg, more, c, s2);
    more := more + [s2];
    var s3 := With(s2, c, Inserting(u, p));
    CallerMoves(cfg, more, c, s3);
    more := more + [s3];
    more := InsertRun(cfg, more, c, u, p);
  }

  lemma InsertRun(cfg: Config, states: seq<State>, c: nat, u: Uri, p: Plan) returns (more: seq<State>)
    requires OwnRun(cfg, states) && WellFormed(Last(states).table) && !Busy(Last(states).table, u, Last(states).now)
    requires c in Last(states).callers && Last(states).callers[c].pc == Inserting(u, p)
    ensures OwnRun(cfg, more) && more != []
    ensures var s, s' := Last(states), Last(more);
            && s'.table == Insert(s.table, u, p, cfg.lockTimeout, s.now) && s'.holder == s.holder + [c]
            && s'.now == s.now && s'.mutex.None? && s'.gaveBack == s.gaveBack
            && s'.callers.Keys == s.callers.Keys && s'.callers[c].pc == Returned(Acquired(|s.table.issued|))
            && forall d | d in s.callers && d != c :: s'.callers[d] == s.callers[d]
  {
    var s := Last(states);
    var done := Return(Acquired(|s.table.issued|));
    var s1 := With(s, c, Leaving(done)).(
        table := Insert(s.table, u, p, cfg.lockTimeout, s.now), holder := s.holder + [c]);
    assert Inserts(cfg, s, s1, c, u, p);
    CallerMoves(cfg, states, c, s1);
    more := states + [s1];
    var s2 := Giving(s1, c, AfterLeave(cfg, done, s1.mono));
    assert Gives(s1, s2, c, AfterLeave(cfg, done, s1.mono));
    CallerMoves(cfg, more, c, s2);
    more := more + [s2];
  }

  /** The call of release, made for an own believed lock. */
  lemma CallRun(cfg: Config, states: seq<State>, c: nat, u: Uri, i: nat) returns (more: seq<State>)
    requires OwnRun(cfg, states) && WellFormed(Last(states).table) && OwnCall(Last(states), c, u, Some(i))
    requires c in Last(states).callers && Last(states).callers[c].pc.Returned?
    ensures OwnRun(cfg, more) && more != []
    ensures var s, s' := Last(states), Last(more);
            s' == With(s, c, WantsRelease(u, Some(i), s.now)).(gaveBack := s.gaveBack + {i})
  {
    var s := Last(states);
    var s1 := With(s, c, Idle);
    assert Moves(s, s1, c, Idle);
    CallerMoves(cfg, states, c, s1);
    more := states + [s1];
    var s2 := With(s1, c, WantsRelease(u, Some(i), s1.now)).(gaveBack := s1.gaveBack + {i});
    assert CallsRelease(s1, s2, c, u, Some(i));
    assert CallerStep(cfg, s1, s2, c);
    assert Believes(s1, i);
    OneMoreState(cfg, more, s2);
    more := more + [s2];
  }

  lemma TickRun(cfg: Config, states: seq<State>, now: real) returns (more: seq<State>)
    requires OwnRun(cfg, states) && WellFormed(Last(states).table) && Last(states).now <= now
    ensures OwnRun(cfg, more) && more != [] && Last(more) == Last(states).(now := now)
  {
    var s' := Last(states).(now := now);
    assert Ticks(Last(states), s');
    OneMoreState(cfg, states, s');
    more := states + [s'];
  }

  /** The release takes the mutex and executes. */
  lemma ExecuteRun(
      cfg: Config, states: seq<State>, c: nat, u: Uri, mine: Option<nat>, at: real) returns (more: seq<State>)
    requires OwnRun(cfg, states) && WellFormed(Last(states).table) && Last(states).mutex.None?
    requires c in Last(states).callers && Last(states).callers[c].pc == WantsRelease(u, mine, at)
    ensures OwnRun(cfg, more) && more != []
    ensures var s, s' := Last(states), Last(more);
            && s'.table == ReleaseUri(s.table, u) && s'.holder == s.holder && s'.now == s.now && s'.mutex.None?
            && s'.gaveBack == s.gaveBack && s'.callers.Keys == s.callers.Keys
            && forall d | d in s.callers && d != c :: s'.callers[d] == s.callers[d]
  {
    var s := Last(states);
    var s1 := Taking(s, c, Releasing(u, mine, at));
    assert Takes(s, s1, c, Releasing(u, mine, at));
    CallerMoves(cfg, states, c, s1);
    more := states + [s1];
    var s2 := With(s1, c, Leaving(Return(Released))).(table := ReleaseUri(s1.table, u));
    assert Releases(s1, s2, c, u);
    ReleaseWellFormed(s1.table, u);
    CallerMoves(cfg, more, c, s2);
    more := more + [s2];
    var s3 := Giving(s2, c, Returned(Released));
    assert Gives(s2, s3, c, Returned(Released));
    CallerMoves(cfg, more, c, s3);
    more := more + [s3];
  }

  lemma ReleaseWellFormed(t: Table, u: Uri)
    requires WellFormed(t)
    ensures WellFormed(ReleaseUri(t, u))
  {
  }

  lemma InsertWellFormed(t: Table, u: Uri, p: Plan, timeout: real, now: real)
    requires WellFormed(t)
    ensures WellFormed(Insert(t, u, p, timeout, now))
  {
  }

  /**
   * Checking one's belief at the call is not enough. A caller calls release while its lock is active, waits for
   * the mutex past the expiry, and takes away the lock of the next holder, so that a third believes beside it.
   */
  lemma RaceBreaksExclusion(u: Uri, p: Plan) returns (cfg: Config, states: seq<State>)
    ensures OwnRun(cfg, states)
    ensures var s := Last(states);
            Believes(s, 1) && Believes(s, 2) && s.table.issued[1].uri == s.table.issued[2].uri == u
  {
    cfg := Config(Wait, 1.0, 10.0);
    states := RaceSetUp(cfg, u, p);
    var t := Last(states).table;
    states := ExecuteRun(cfg, states, 0, u, Some(0), 0.0);
    ReleaseWellFormed(t, u);
    assert u !in ReleaseUri(t, u).locks;
    states := AcquireRun(cfg, states, 2, u, p);
    assert Last(states).table == Insert(ReleaseUri(t, u), u, p, 1.0, 2.0);
  }

  /** Caller 0 holds, calls release and waits; time passes its expiry; caller 1 acquires. */
  lemma RaceSetUp(cfg: Config, u: Uri, p: Plan) returns (states: seq<State>)
    requires cfg.lockTimeout == 1.0
    ensures OwnRun(cfg, states)
    ensures var s := Last(states);
            && s.table == Insert(Insert(Table(map[], []), u, p, 1.0, 0.0), u, p, 1.0, 2.0) && WellFormed(s.table)
            && s.now == 2.0 && s.mutex.None? && s.gaveBack == {0} && s.callers.Keys == {0, 1, 2}
            && s.callers[0].pc == WantsRelease(u, Some(0), 0.0) && s.callers[2].pc.Idle?
  {
    var idle := Caller(Idle, 0, 0);
    var start := State(0.0, 0.0, None, Table(map[], []), map[0 := idle, 1 := idle, 2 := idle], [], {});
    states := [start];
    assert OwnRun(cfg, states);
    states := AcquireRun(cfg, states, 0, u, p);
    var t0 := Insert(start.table, u, p, 1.0, 0.0);
    InsertWellFormed(start.table, u, p, 1.0, 0.0);
    assert Believes(Last(states), 0);
    states := CallRun(cfg, states, 0, u, 0);
    states := TickRun(cfg, states, 2.0);
    assert !Busy(t0, u, 2.0);
    states := AcquireRun(cfg, states, 1, u, p);
    InsertWellFormed(t0, u, p, 1.0, 2.0);
  }

  // ------------------------------------------------------------------- the lock object

  /** Not released, and no longer held than its timeout. */
  ghost predicate Holds(l: Lock, now: real) {
    !l.released && now <= l.acquiredAt + l.timeout
  }

  ghost predicate SameElsewhere(t: Table, t': Table, u: Uri) {
    forall v | v != u :: (v in t'.locks <==> v in t.locks) && (v in t.locks ==> t'.locks[v] == t.locks[v])
  }

  ghost function BusyAmong(t: Table, uris: seq<Uri>, now: real): (r: seq<Uri>)
    requires WellFormed(t)
    ensures forall u :: u in r <==> u in uris && Busy(t, u, now)
  {
    if uris == [] then []
    else
      var n := |uris| - 1;
      assert uris == uris[..n] + [uris[n]];
      BusyAmong(t, uris[..n], now) + if Busy(t, uris[n], now) then [uris[n]] else []
  }

  class StateLocks {
    const cfg: Config
    var table: Table

    constructor (config: Config)
      ensures cfg == config && table == Table(map[], [])
    {
      cfg, table := config, Table(map[], []);
    }

    /** One mutex hold of `acquire`: check, and insert if the resource is free. */
    method TryAcquire(u: Uri, p: Plan, now: real) returns (acquired: bool)
      requires WellFormed(table) && Exclusive(table, now)
      modifies this
      ensures acquired <==> !Busy(old(table), u, now)
      ensures !acquired <==> u in old(table).locks && Holds(old(table).issued[old(table).locks[u]], now)
      ensures acquired ==>
                && u in table.locks && table.locks[u] == |old(table).issued| == |table.issued| - 1
                && table.issued[table.locks[u]] == Lock(u, p, now, cfg.lockTimeout, false)
                && (forall i | 0 <= i < |old(table).issued| :: table.issued[i] == old(table).issued[i])
                && SameElsewhere(old(table), table, u)
      ensures !acquired ==> table == old(table)
      ensures table == if acquired then Insert(old(table), u, p, cfg.lockTimeout, now) else old(table)
      ensures WellFormed(table) && Exclusive(table, now)
    {
      if u in table.locks && Active(table.issued[table.locks[u]], now) {
        return false;
      }
      InsertKeepsExclusive(table, u, p, cfg.lockTimeout, now);
      var lock := Lock(u, p, now, cfg.lockTimeout, false);
      table := Table(table.locks[u := |table.issued|], table.issued + [lock]);
      return true;
    }

    method Release(u: Uri, now: real)
      requires WellFormed(table) && Exclusive(table, now)
      modifies this
      ensures table == ReleaseUri(old(table), u)
      ensures u !in table.locks && SameElsewhere(old(table), table, u) && |table.issued| == |old(table).issued|
      ensures forall i | 0 <= i < |table.issued| :: table.issued[i] ==
                if u in old(table).locks && i == old(table).locks[u]
                then old(table).issued[i].(released := true) else old(table).issued[i]
      ensures WellFormed(table) && Exclusive(table, now) && !Busy(table, u, now)
    {
      ReleaseKeepsExclusive(table, u, now);
      if u in table.locks {
        var i := table.locks[u];
        table := Table(table.locks - {u}, table.issued[i := table.issued[i].(released := true)]);
      }
    }

    /** The requested resources that are locked, in request order and as often as requested. */
    method PreExecutionConflict(uris: seq<Uri>, now: real) returns (conflicts: seq<Uri>)
      requires WellFormed(table)
      ensures conflicts == BusyAmong(table, uris, now)
      ensures forall u :: u in conflicts <==>
                u in uris && u in table.locks && Holds(table.issued[table.locks[u]], now)
    {
      conflicts := [];
      for i := 0 to |uris|
        invariant conflicts == BusyAmong(table, uris[..i], now)
      {
        assert uris[..i + 1][..i] == uris[..i];
        if uris[i] in table.locks && Active(table.issued[table.locks[uris[i]]], now) {
          conflicts := conflicts + [uris[i]];
        }
      }
      assert uris[..|uris|] == uris;
    }
  }
}
