/** The process-wide CPU admission protocol, as atomic steps of any number of
    activities under sequential consistency. An activity is one request: it is
    idle, somewhere inside an admission or a release, or holding one permit.
    A thread that holds two permits is two activities here, which only allows
    more interleavings. */
module CpuExecutor {

  const MAX_CPU_THREADS := 8

  /** How many workers a machine with `available` hardware threads admits. */
  function ThreadCount(available: nat): (workers: nat)
    ensures 1 <= workers <= MAX_CPU_THREADS
    ensures 1 < workers < MAX_CPU_THREADS ==> 2 * workers - 1 <= available <= 2 * workers
    ensures workers == 1 ==> available <= 2
  {
    var half := (available + 1) / 2;
    if half < 1 then 1 else if half > MAX_CPU_THREADS then MAX_CPU_THREADS else half
  }

  /** Program points of a query entering in the foreground. */
  datatype FgPC =
    | FgCheck | FgFast | FgLock | FgRegister | FgRegisterFg
    | FgPoll | FgTry | FgWait | FgBlocked | FgWoken
    | FgOkLeaveFg | FgOkLeave | FgOkUnlock
    | FgCancelLeaveFg | FgCancelLeave | FgCancelNotify | FgCancelUnlock

  /** Program points of background work entering. */
  datatype BgPC =
    | BgLock | BgRegister | BgLoadFg | BgLoadActive | BgLoadFree | BgTry(sawFg: bool)
    | BgCount(sawFg: bool) | BgLeave | BgUnlock | BgWait | BgBlocked | BgWoken

  /** Holding a permit, or dropping it and then either being idle or entering the
      background again. A background permit always has one unit. */
  datatype PermitPC =
    | Holding(count: nat) | HoldingBg
    | RelUncount(again: bool) | RelAdd(count: nat, again: bool) | RelLoad(again: bool)
    | RelLock(again: bool) | RelNotify(again: bool) | RelUnlock(again: bool)

  /** A canceller that has set a flag and still owes the wake call, and admission
      to the Rayon pool, which never waits. */
  datatype OtherPC =
    | WakeLock | WakeNotify | WakeUnlock
    | AcqLoad(maximum: nat) | AcqTake(maximum: nat) | AllLoad | AllTake

  /** The next atomic action of an activity. */
  datatype PC = Idle | Fg(fg: FgPC) | Bg(bg: BgPC) | Permit(permit: PermitPC) | Other(other: OtherPC)

  datatype Activity = Activity(pc: PC, cancelled: bool)

  /** The fields of the budget that every thread shares, and the mutex. */
  datatype Budget = Budget(
    capacity: nat,
    available: nat,
    foreground: nat,
    waiters: nat,
    background: nat,
    locked: bool)

  datatype State = State(budget: Budget, activities: seq<Activity>)

  /** What one atomic action does to the budget, to the activity that takes it,
      and whether it notifies every blocked activity. */
  datatype Effect = Effect(budget: Budget, pc: PC, notify: bool := false)

  /** What the environment decides: which call an idle activity makes, when a
      permit is dropped or checkpointed, and when a wait wakes up spuriously. */
  datatype Choice =
    | Go
    | Query(alreadyCancelled: bool)
    | Background
    | Acquire(maximum: nat)
    | AcquireAll
    | Cancel(target: nat)
    | Checkpoint

  function Init(capacity: nat, activities: nat): State {
    State(Budget(capacity, capacity, 0, 0, 0, false), seq(activities, _ => Activity(Idle, false)))
  }

  function Less(n: nat): nat {
    if n > 0 then n - 1 else 0
  }

  /** Take the mutex and go to `then_`, or stay at `pc` while it is held. */
  function TakeMutex(b: Budget, pc: PC, then_: PC): Effect {
    if b.locked then Effect(b, pc) else Effect(b.(locked := true), then_)
  }

  function Start(b: Budget, c: Choice): Effect {
    match c
    case Query(_) => Effect(b, Fg(FgCheck))
    case Background => Effect(b, Bg(BgLock))
    // no pool exists when the machine admits a single worker
    case Acquire(maximum) => Effect(b, if b.capacity <= 1 then Idle else Other(AcqLoad(maximum)))
    case AcquireAll => Effect(b, if b.capacity <= 1 then Idle else Other(AllLoad))
    case Cancel(_) => Effect(b, Other(WakeLock))
    case _ => Effect(b, Idle)
  }

  function Release(b: Budget, pc: PermitPC, c: Choice): Effect {
    match pc
    case Holding(count) => Effect(b, Permit(RelAdd(count, false)))
    case HoldingBg =>
        Effect(b, if c.Checkpoint? && b.foreground == 0 then Permit(pc) else Permit(RelUncount(c.Checkpoint?)))
    case RelUncount(again) => Effect(b.(background := Less(b.background)), Permit(RelAdd(1, again)))
    case RelAdd(count, again) => Effect(b.(available := b.available + count), Permit(RelLoad(again)))
    case RelLoad(again) =>
        Effect(b, if b.waiters != 0 then Permit(RelLock(again)) else if again then Bg(BgLock) else Idle)
    case RelLock(again) => TakeMutex(b, Permit(pc), Permit(RelNotify(again)))
    case RelNotify(again) => Effect(b, Permit(RelUnlock(again)), true)
    case RelUnlock(again) => Effect(b.(locked := false), if again then Bg(BgLock) else Idle)
  }

  function EnterForeground(b: Budget, pc: FgPC, cancelled: bool): Effect {
    match pc
    case FgCheck => Effect(b, if cancelled then Idle else Fg(FgFast))
    case FgFast =>
        if b.available >= 1 then Effect(b.(available := b.available - 1), Permit(Holding(1))) else Effect(b, Fg(FgLock))
    case FgLock => TakeMutex(b, Fg(pc), Fg(FgRegister))
    case FgRegister => Effect(b.(waiters := b.waiters + 1), Fg(FgRegisterFg))
    case FgRegisterFg => Effect(b.(foreground := b.foreground + 1), Fg(FgPoll))
    case FgPoll => Effect(b, if cancelled then Fg(FgCancelLeaveFg) else Fg(FgTry))
    case FgTry =>
        if b.available >= 1 then Effect(b.(available := b.available - 1), Fg(FgOkLeaveFg)) else Effect(b, Fg(FgWait))
    case FgWait => Effect(b.(locked := false), Fg(FgBlocked))
    case FgBlocked => Effect(b, Fg(FgWoken))  // a spurious wakeup
    case FgWoken => TakeMutex(b, Fg(pc), Fg(FgPoll))
    case FgOkLeaveFg => Effect(b.(foreground := Less(b.foreground)), Fg(FgOkLeave))
    case FgOkLeave => Effect(b.(waiters := Less(b.waiters)), Fg(FgOkUnlock))
    case FgOkUnlock => Effect(b.(locked := false), Permit(Holding(1)))
    case FgCancelLeaveFg => Effect(b.(foreground := Less(b.foreground)), Fg(FgCancelLeave))
    case FgCancelLeave => Effect(b.(waiters := Less(b.waiters)), Fg(FgCancelNotify))
    case FgCancelNotify => Effect(b, Fg(FgCancelUnlock), true)
    case FgCancelUnlock => Effect(b.(locked := false), Idle)
  }

  function EnterBackground(b: Budget, pc: BgPC): Effect {
    match pc
    case BgLock => TakeMutex(b, Bg(pc), Bg(BgRegister))
    case BgRegister => Effect(b.(waiters := b.waiters + 1), Bg(BgLoadFg))
    case BgLoadFg => Effect(b, if b.foreground == 0 then Bg(BgTry(false)) else Bg(BgLoadActive))
    case BgLoadActive => Effect(b, if b.background == 0 then Bg(BgLoadFree) else Bg(BgWait))
    case BgLoadFree => Effect(b, if b.available > 1 then Bg(BgTry(true)) else Bg(BgWait))
    case BgTry(saw) =>
        if b.available >= 1 then Effect(b.(available := b.available - 1), Bg(BgCount(saw))) else Effect(b, Bg(BgWait))
    case BgCount(_) => Effect(b.(background := b.background + 1), Bg(BgLeave))
    case BgLeave => Effect(b.(waiters := Less(b.waiters)), Bg(BgUnlock))
    case BgUnlock => Effect(b.(locked := false), Permit(HoldingBg))
    case BgWait => Effect(b.(locked := false), Bg(BgBlocked))
    case BgBlocked => Effect(b, Bg(BgWoken))  // a spurious wakeup
    case BgWoken => TakeMutex(b, Bg(pc), Bg(BgLoadFg))
  }

  /** The wake call after a cancellation, and admission to the pool. */
  function Others(b: Budget, pc: OtherPC): Effect {
    match pc
    case WakeLock => TakeMutex(b, Other(pc), Other(WakeNotify))
    case WakeNotify => Effect(b, Other(WakeUnlock), true)
    case WakeUnlock => Effect(b.(locked := false), Idle)
    case AcqLoad(maximum) => Effect(b, if b.foreground > 0 then Idle else Other(AcqTake(maximum)))
    case AcqTake(maximum) =>
      var count := if maximum < b.available then maximum else b.available;
      if count == 0 then Effect(b, Idle)
      else
        Effect(
          b.(available := b.available - count),
          if count <= 1 then Permit(RelAdd(count, false)) else Permit(Holding(count)))
    case AllLoad => Effect(b, if b.foreground > 0 then Idle else Other(AllTake))
    case AllTake =>
      if b.available >= b.capacity then Effect(b.(available := b.available - b.capacity), Permit(Holding(b.capacity)))
      else Effect(b, Idle)
  }

  function Act(b: Budget, a: Activity, c: Choice): Effect {
    match a.pc
    case Idle => Start(b, c)
    case Fg(pc) => EnterForeground(b, pc, a.cancelled)
    case Bg(pc) => EnterBackground(b, pc)
    case Permit(pc) => Release(b, pc, c)
    case Other(pc) => Others(b, pc)
  }

  function Wake(a: Activity): Activity {
    if a.pc == Fg(FgBlocked) then a.(pc := Fg(FgWoken))
    else if a.pc == Bg(BgBlocked) then a.(pc := Bg(BgWoken))
    else a
  }

  function NotifyAll(ts: seq<Activity>): (r: seq<Activity>)
    ensures |r| == |ts| && forall i :: 0 <= i < |ts| ==> r[i] == Wake(ts[i])
  {
    seq(|ts|, i requires 0 <= i < |ts| => Wake(ts[i]))
  }

  /** Setting a cancellation flag is part of the step that starts the wake call;
      starting a query gives the activity a fresh flag. */
  function Flag(ts: seq<Activity>, t: nat, c: Choice): seq<Activity>
    requires t < |ts|
    ensures |Flag(ts, t, c)| == |ts|
  {
    if ts[t].pc.Idle? && c.Query? then ts[t := ts[t].(cancelled := c.alreadyCancelled)]
    else if ts[t].pc.Idle? && c.Cancel? && c.target < |ts| then ts[c.target := ts[c.target].(cancelled := true)]
    else ts
  }

  /** One atomic step of activity `t`. A step that is not enabled, such as
      taking a mutex that is held, leaves the state as it is. */
  function Step(s: State, t: nat, c: Choice): State {
    if t >= |s.activities| then s
    else
      var effect := Act(s.budget, s.activities[t], c);
      var ts := if effect.notify then NotifyAll(s.activities) else Flag(s.activities, t, c);
      State(effect.budget, ts[t := ts[t].(pc := effect.pc)])
  }

  /** The state after a whole schedule. */
  function Run(s: State, schedule: seq<(nat, Choice)>): State
    decreases |schedule|
  {
    if schedule == [] then s
    else
      var before := Run(s, schedule[..|schedule| - 1]);
      Step(before, schedule[|schedule| - 1].0, schedule[|schedule| - 1].1)
  }

  // ---------- Counting activities ----------

  /** How many activities are at program points of each group. An activity's own
      tally says what it holds (units, mutex), where it is registered (waiter,
      fg, bg), whether it still owes a notification, whether it waits, and what
      an entering background activity has read. */
  datatype Tally = Tally(
    units: int := 0, waiter: int := 0, fg: int := 0, bg: int := 0, mutex: int := 0,
    releaser: int := 0, waker: int := 0, canceller: int := 0,
    fgStuck: int := 0, cancelStuck: int := 0, bgStuck: int := 0, fgRunnable: int := 0,
    seesFg: int := 0, seesNone: int := 0, seesInactive: int := 0)
  {
    function Plus(t: Tally): Tally {
      Tally(units + t.units, waiter + t.waiter, fg + t.fg, bg + t.bg, mutex + t.mutex,
            releaser + t.releaser, waker + t.waker, canceller + t.canceller,
            fgStuck + t.fgStuck, cancelStuck + t.cancelStuck, bgStuck + t.bgStuck, fgRunnable + t.fgRunnable,
            seesFg + t.seesFg, seesNone + t.seesNone, seesInactive + t.seesInactive)
    }
  }

  function OfForeground(pc: FgPC, cancelled: bool): Tally {
    var cancel := if cancelled then 1 else 0;
    match pc
    case FgRegister => Tally(mutex := 1)
    case FgRegisterFg => Tally(mutex := 1, waiter := 1)
    case FgPoll => Tally(mutex := 1, waiter := 1, fg := 1, fgRunnable := 1)
    case FgTry => Tally(mutex := 1, waiter := 1, fg := 1, fgRunnable := 1, cancelStuck := cancel)
    case FgWait => Tally(mutex := 1, waiter := 1, fg := 1, fgStuck := 1, cancelStuck := cancel)
    case FgBlocked => Tally(waiter := 1, fg := 1, fgStuck := 1, cancelStuck := cancel)
    case FgWoken => Tally(waiter := 1, fg := 1, fgRunnable := 1)
    case FgOkLeaveFg => Tally(units := 1, mutex := 1, waiter := 1, fg := 1, fgRunnable := 1)
    case FgOkLeave => Tally(units := 1, mutex := 1, waiter := 1)
    case FgOkUnlock => Tally(units := 1, mutex := 1)
    case FgCancelLeaveFg => Tally(mutex := 1, waiter := 1, fg := 1, fgRunnable := 1, canceller := 1)
    case FgCancelLeave => Tally(mutex := 1, waiter := 1, canceller := 1)
    case FgCancelNotify => Tally(mutex := 1, canceller := 1)
    case FgCancelUnlock => Tally(mutex := 1)
    case _ => Tally()
  }

  function OfBackground(pc: BgPC): Tally {
    match pc
    case BgLock => Tally()
    case BgRegister => Tally(mutex := 1)
    case BgLoadFg => Tally(mutex := 1, waiter := 1)
    case BgLoadActive => Tally(mutex := 1, waiter := 1, seesFg := 1)
    case BgLoadFree => Tally(mutex := 1, waiter := 1, seesFg := 1, seesInactive := 1)
    case BgTry(saw) =>
      if saw then Tally(mutex := 1, waiter := 1, seesFg := 1, seesInactive := 1)
      else Tally(mutex := 1, waiter := 1, seesNone := 1)
    case BgCount(saw) =>
      if saw then Tally(units := 1, mutex := 1, waiter := 1, seesFg := 1, seesInactive := 1)
      else Tally(units := 1, mutex := 1, waiter := 1, seesNone := 1)
    case BgLeave => Tally(units := 1, bg := 1, mutex := 1, waiter := 1)
    case BgUnlock => Tally(units := 1, bg := 1, mutex := 1)
    case BgWait => Tally(mutex := 1, waiter := 1, bgStuck := 1)
    case BgBlocked => Tally(waiter := 1, bgStuck := 1)
    case BgWoken => Tally(waiter := 1)
  }

  function OfPermit(pc: PermitPC): Tally {
    match pc
    case Holding(count) => Tally(units := count)
    case HoldingBg => Tally(units := 1, bg := 1)
    case RelUncount(_) => Tally(units := 1, bg := 1)
    case RelAdd(count, _) => Tally(units := count)
    case RelLoad(_) => Tally(releaser := 1)
    case RelLock(_) => Tally(releaser := 1)
    case RelNotify(_) => Tally(releaser := 1, mutex := 1)
    case RelUnlock(_) => Tally(mutex := 1)
  }

  function OfOthers(pc: OtherPC): Tally {
    match pc
    case WakeLock => Tally(waker := 1)
    case WakeNotify => Tally(waker := 1, mutex := 1)
    case WakeUnlock => Tally(mutex := 1)
    case _ => Tally()
  }

  function Of(a: Activity): Tally {
    match a.pc
    case Idle => Tally()
    case Fg(pc) => OfForeground(pc, a.cancelled)
    case Bg(pc) => OfBackground(pc)
    case Permit(pc) => OfPermit(pc)
    case Other(pc) => OfOthers(pc)
  }

  function Tallies(ts: seq<Activity>): (r: seq<Tally>)
    ensures |r| == |ts| && forall i :: 0 <= i < |ts| ==> r[i] == Of(ts[i])
  {
    seq(|ts|, i requires 0 <= i < |ts| => Of(ts[i]))
  }

  function Sum(ls: seq<Tally>): Tally {
    if ls == [] then Tally() else ls[0].Plus(Sum(ls[1..]))
  }

  function Total(ts: seq<Activity>): Tally {
    Sum(Tallies(ts))
  }

  /** Relations that hold of every activity's tally, and so of every total. */
  ghost predicate Consistent(t: Tally) {
    && t.units >= 0 && t.waiter >= 0 && t.fg >= 0 && t.bg >= 0 && t.mutex >= 0
    && t.releaser >= 0 && t.waker >= 0 && t.canceller >= 0
    && t.fgStuck >= 0 && t.cancelStuck >= 0 && t.bgStuck >= 0 && t.fgRunnable >= 0
    && t.seesFg >= 0 && t.seesNone >= 0 && t.seesInactive >= 0
    && t.fgStuck + t.bgStuck <= t.waiter
    && t.bg <= t.units
    && t.fg == t.fgStuck + t.fgRunnable
    && t.seesFg + t.seesNone <= t.mutex
    && t.seesInactive <= t.seesFg
  }

  lemma ForegroundConsistent(pc: FgPC, cancelled: bool)
    ensures Consistent(OfForeground(pc, cancelled))
  {
  }

  lemma BackgroundConsistent(pc: BgPC)
    ensures Consistent(OfBackground(pc))
  {
  }

  lemma OfConsistent(a: Activity)
    ensures Consistent(Of(a))
  {
    match a.pc
    case Fg(pc) => ForegroundConsistent(pc, a.cancelled);
    case Bg(pc) => BackgroundConsistent(pc);
    case Permit(pc) => hide OfForeground, OfBackground;
    case _ => hide OfForeground, OfBackground;
  }

  lemma PlusSwap(x: Tally, y: Tally, z: Tally)
    ensures x.Plus(y.Plus(z)) == y.Plus(x.Plus(z))
  {
  }

  lemma PlusConsistent(x: Tally, y: Tally)
    requires Consistent(x) && Consistent(y)
    ensures Consistent(x.Plus(y))
  {
  }

  /** A total is one tally plus the rest, and replacing that one keeps the rest. */
  lemma {:induction false} Split(ls: seq<Tally>, i: nat, l: Tally) returns (rest: Tally)
    requires i < |ls|
    requires forall j :: 0 <= j < |ls| ==> Consistent(ls[j])
    ensures Sum(ls) == ls[i].Plus(rest)
    ensures Sum(ls[i := l]) == l.Plus(rest)
    ensures Consistent(rest)
  {
    if i == 0 {
      assert ls[i := l][1..] == ls[1..];
      rest := Sum(ls[1..]);
      SumConsistent(ls[1..]);
    } else {
      assert ls[i := l][1..] == ls[1..][i - 1 := l];
      var inner := Split(ls[1..], i - 1, l);
      rest := ls[0].Plus(inner);
      PlusSwap(ls[0], ls[i], inner);
      PlusSwap(ls[0], l, inner);
      PlusConsistent(ls[0], inner);
    }
  }

  lemma {:induction false} SumConsistent(ls: seq<Tally>)
    requires forall j :: 0 <= j < |ls| ==> Consistent(ls[j])
    ensures Consistent(Sum(ls))
  {
    if ls != [] {
      SumConsistent(ls[1..]);
      PlusConsistent(ls[0], Sum(ls[1..]));
    }
  }

  // ---------- The invariant ----------

  /** Free units plus units held is the capacity; every counter is the number of
      registered activities; the mutex has at most one holder. */
  ghost predicate Accounting(b: Budget, t: Tally) {
    && b.available + t.units == b.capacity
    && b.waiters == t.waiter
    && b.foreground == t.fg
    && b.background == t.bg
    && t.mutex == (if b.locked then 1 else 0)
  }

  /** What an entering background activity has read stays true while it holds the mutex. */
  ghost predicate Observed(b: Budget, t: Tally) {
    && (t.seesFg > 0 ==> b.foreground > 0)
    && (t.seesNone > 0 ==> b.foreground == 0)
    && (t.seesInactive > 0 ==> b.background == 0)
  }

  ghost predicate Live(b: Budget, t: Tally) {
    && (t.fgStuck > 0 && b.available > 0 ==> t.releaser > 0)
    && (t.cancelStuck > 0 ==> t.waker > 0)
    && (t.bgStuck > 0 ==> b.available < b.capacity || t.releaser + t.waker + t.canceller + t.fgRunnable > 0)
  }

  ghost predicate Good(b: Budget, t: Tally) {
    b.capacity >= 1 && Accounting(b, t) && Observed(b, t) && Live(b, t)
  }

  ghost predicate Inv(s: State) {
    Good(s.budget, Total(s.activities))
  }

  lemma ForegroundLive(b: Budget, pc: FgPC, cancelled: bool, rest: Tally)
    requires pc != FgCancelNotify
    requires Consistent(rest) && Good(b, OfForeground(pc, cancelled).Plus(rest))
    ensures var e := EnterForeground(b, pc, cancelled); Live(e.budget, Of(Activity(e.pc, cancelled)).Plus(rest))
  {
  }

  lemma ForegroundGood(b: Budget, pc: FgPC, cancelled: bool, rest: Tally)
    requires pc != FgCancelNotify
    requires Consistent(rest) && Good(b, OfForeground(pc, cancelled).Plus(rest))
    ensures var e := EnterForeground(b, pc, cancelled); Good(e.budget, Of(Activity(e.pc, cancelled)).Plus(rest))
  {
    ForegroundLive(b, pc, cancelled, rest);
    hide Live;
  }

  lemma BackgroundGood(b: Budget, pc: BgPC, cancelled: bool, rest: Tally)
    requires Consistent(rest) && Good(b, OfBackground(pc).Plus(rest))
    ensures var e := EnterBackground(b, pc); Good(e.budget, Of(Activity(e.pc, cancelled)).Plus(rest))
  {
  }

  lemma ReleaseGood(b: Budget, pc: PermitPC, c: Choice, cancelled: bool, rest: Tally)
    requires !pc.RelNotify?
    requires Consistent(rest) && Good(b, OfPermit(pc).Plus(rest))
    ensures var e := Release(b, pc, c); Good(e.budget, Of(Activity(e.pc, cancelled)).Plus(rest))
  {
  }

  lemma OthersGood(b: Budget, pc: OtherPC, cancelled: bool, rest: Tally)
    requires pc != WakeNotify
    requires Consistent(rest) && Good(b, OfOthers(pc).Plus(rest))
    ensures var e := Others(b, pc); Good(e.budget, Of(Activity(e.pc, cancelled)).Plus(rest))
  {
  }

  // ---------- Notification ----------

  /** How a notification changes a tally: nobody stays blocked, so whoever still
      counts as waiting holds the mutex. */
  ghost predicate Woken(x: Tally, y: Tally) {
    && Consistent(x) && Consistent(y)
    && y.units == x.units && y.waiter == x.waiter && y.fg == x.fg && y.bg == x.bg && y.mutex == x.mutex
    && y.releaser == x.releaser && y.waker == x.waker && y.canceller == x.canceller
    && y.seesFg == x.seesFg && y.seesNone == x.seesNone && y.seesInactive == x.seesInactive
    && y.fgStuck + y.bgStuck <= x.mutex
    && y.cancelStuck <= x.mutex
  }

  /** An activity that a notification does not move waits only while it holds the mutex. */
  lemma WaitingHoldsMutex(a: Activity)
    requires Wake(a) == a
    ensures Woken(Of(a), Of(a))
  {
    OfConsistent(a);
    match a.pc
    case Fg(pc) => assert pc != FgBlocked;
    case Bg(pc) => assert pc != BgBlocked;
    case _ =>
  }

  lemma FgBlockedWoken(x: Tally, y: Tally, stuck: int)
    requires x == Tally(waiter := 1, fg := 1, fgStuck := 1, cancelStuck := stuck) && stuck >= 0
    requires y == Tally(waiter := 1, fg := 1, fgRunnable := 1)
    ensures Woken(x, y)
  {
  }

  lemma BgBlockedWoken(x: Tally, y: Tally)
    requires x == Tally(waiter := 1, bgStuck := 1) && y == Tally(waiter := 1)
    ensures Woken(x, y)
  {
  }

  lemma WakeWoken(a: Activity)
    ensures Woken(Of(a), Of(Wake(a)))
  {
    if a.pc == Fg(FgBlocked) {
      FgBlockedWoken(Of(a), Of(Wake(a)), if a.cancelled then 1 else 0);
    } else if a.pc == Bg(BgBlocked) {
      BgBlockedWoken(Of(a), Of(Wake(a)));
    } else {
      WaitingHoldsMutex(a);
      assert Wake(a) == a;
    }
  }

  lemma PairWoken(a: Activity, x: Tally, y: Tally)
    requires x == Of(a) && y == Of(Wake(a))
    ensures Woken(x, y)
  {
    WakeWoken(a);
  }

  lemma TalliesWoken(ts: seq<Activity>)
    ensures forall j :: 0 <= j < |ts| ==> Woken(Tallies(ts)[j], Tallies(NotifyAll(ts))[j])
  {
    forall j | 0 <= j < |ts|
      ensures Woken(Tallies(ts)[j], Tallies(NotifyAll(ts))[j])
    {
      PairWoken(ts[j], Tallies(ts)[j], Tallies(NotifyAll(ts))[j]);
    }
  }

  lemma TalliesConsistent(ts: seq<Activity>)
    ensures forall j :: 0 <= j < |ts| ==> Consistent(Tallies(ts)[j])
  {
    forall j | 0 <= j < |ts| ensures Consistent(Tallies(ts)[j]) { OfConsistent(ts[j]); }
  }

  lemma TalliesUpdate(ts: seq<Activity>, i: nat, a: Activity)
    requires i < |ts|
    ensures Tallies(ts[i := a]) == Tallies(ts)[i := Of(a)]
  {
  }

  lemma PlusWoken(x: Tally, y: Tally, u: Tally, v: Tally)
    requires Woken(x, y) && Woken(u, v)
    ensures Woken(x.Plus(u), y.Plus(v))
  {
  }

  lemma {:induction false} SumWoken(ls: seq<Tally>, ms: seq<Tally>)
    requires |ls| == |ms| && forall j :: 0 <= j < |ls| ==> Woken(ls[j], ms[j])
    ensures Woken(Sum(ls), Sum(ms))
  {
    if ls != [] {
      SumWoken(ls[1..], ms[1..]);
      PlusWoken(ls[0], ms[0], Sum(ls[1..]), Sum(ms[1..]));
    }
  }

  /** `Split` across a notification. */
  lemma {:induction false} SplitWoken(ls: seq<Tally>, ms: seq<Tally>, i: nat, l: Tally)
    returns (rest: Tally, woken: Tally)
    requires |ls| == |ms| && forall j :: 0 <= j < |ls| ==> Woken(ls[j], ms[j])
    requires i < |ls|
    ensures Sum(ls) == ls[i].Plus(rest)
    ensures Sum(ms[i := l]) == l.Plus(woken)
    ensures Woken(rest, woken)
  {
    if i == 0 {
      assert ms[i := l][1..] == ms[1..];
      rest, woken := Sum(ls[1..]), Sum(ms[1..]);
      SumWoken(ls[1..], ms[1..]);
    } else {
      assert ms[i := l][1..] == ms[1..][i - 1 := l];
      var r, w := SplitWoken(ls[1..], ms[1..], i - 1, l);
      rest, woken := ls[0].Plus(r), ms[0].Plus(w);
      PlusSwap(ls[0], ls[i], r);
      PlusSwap(ms[0], l, w);
      PlusWoken(ls[0], ms[0], r, w);
    }
  }

  // ---------- Every step keeps the invariant ----------

  lemma InitInv(capacity: nat, activities: nat)
    requires capacity >= 1
    ensures Inv(Init(capacity, activities))
  {
    AllIdle(Init(capacity, activities).activities);
  }

  lemma {:induction false} AllIdle(ts: seq<Activity>)
    requires forall i :: 0 <= i < |ts| ==> ts[i].pc.Idle?
    ensures Total(ts) == Tally()
  {
    if ts != [] {
      assert Tallies(ts)[1..] == Tallies(ts[1..]);
      AllIdle(ts[1..]);
    }
  }

  lemma ActGood(b: Budget, a: Activity, c: Choice, rest: Tally)
    requires !Act(b, a, c).notify && !(a.pc.Idle? && c.Cancel?)
    requires Consistent(rest) && Good(b, Of(a).Plus(rest))
    ensures var e := Act(b, a, c); Good(e.budget, Of(Activity(e.pc, a.cancelled)).Plus(rest))
  {
    match a.pc
    case Idle =>
    case Fg(pc) => ForegroundGood(b, pc, a.cancelled, rest);
    case Bg(pc) => BackgroundGood(b, pc, a.cancelled, rest);
    case Permit(pc) => ReleaseGood(b, pc, c, a.cancelled, rest);
    case Other(pc) => OthersGood(b, pc, a.cancelled, rest);
  }

  /** The notifier holds the mutex, so after its notification nobody is left waiting. */
  lemma NotifyGood(b: Budget, notifier: Tally, rest: Tally, woken: Tally)
    requires Notifier(notifier)
    requires Woken(rest, woken) && Good(b, notifier.Plus(rest))
    ensures Good(b, Tally(mutex := 1).Plus(woken))
  {
    assert rest.mutex == 0;
    assert woken.fgStuck == woken.bgStuck == woken.cancelStuck == 0;
  }

  lemma CancelTally(a: Activity, cancelled: bool) returns (stuck: int)
    ensures Of(a.(cancelled := cancelled)) == Of(a).(cancelStuck := stuck)
  {
    stuck := Of(a.(cancelled := cancelled)).cancelStuck;
    match a.pc
    case Fg(pc) =>
    case _ =>
  }

  /** Setting a flag can only change how many activities wait although cancelled. */
  lemma FlagTotal(ts: seq<Activity>, i: nat, cancelled: bool) returns (stuck: int)
    requires i < |ts|
    ensures Total(ts[i := ts[i].(cancelled := cancelled)]) == Total(ts).(cancelStuck := stuck)
  {
    var a := ts[i].(cancelled := cancelled);
    var rest := Replace(ts, i, a);
    var own := CancelTally(ts[i], cancelled);
    stuck := own + rest.cancelStuck;
  }

  /** `Split` on activities. */
  lemma Replace(ts: seq<Activity>, i: nat, a: Activity) returns (rest: Tally)
    requires i < |ts|
    ensures Total(ts) == Of(ts[i]).Plus(rest) && Total(ts[i := a]) == Of(a).Plus(rest) && Consistent(rest)
  {
    TalliesConsistent(ts);
    rest := Split(Tallies(ts), i, Of(a));
    TalliesUpdate(ts, i, a);
  }

  predicate Notifier(l: Tally) {
    l.mutex == 1 && l.units == 0 && l.waiter == 0 && l.fg == 0 && l.bg == 0
    && l.seesFg == 0 && l.seesNone == 0 && l.seesInactive == 0
  }

  lemma NotifyTotal(b: Budget, ls: seq<Tally>, ms: seq<Tally>, t: nat, l: Tally)
    requires |ls| == |ms| && forall j :: 0 <= j < |ls| ==> Woken(ls[j], ms[j])
    requires t < |ls| && Good(b, Sum(ls)) && Notifier(ls[t]) && Consistent(l) && l == Tally(mutex := 1)
    ensures Good(b, Sum(ms[t := l]))
  {
    hide Good, Woken, Consistent, Notifier;
    var rest, woken := SplitWoken(ls, ms, t, l);
    NotifyGood(b, ls[t], rest, woken);
  }

  lemma NotifySum(b: Budget, ts: seq<Activity>, t: nat, x: Activity)
    requires t < |ts| && Good(b, Total(ts))
    requires Notifier(Of(ts[t])) && Of(x) == Tally(mutex := 1)
    ensures Good(b, Total(NotifyAll(ts)[t := x]))
  {
    TalliesWoken(ts);
    NotifyTotal(b, Tallies(ts), Tallies(NotifyAll(ts)), t, Of(x));
    TalliesUpdate(NotifyAll(ts), t, x);
  }

  lemma NotifyInv(s: State, t: nat, c: Choice)
    requires Inv(s) && t < |s.activities| && Act(s.budget, s.activities[t], c).notify
    ensures Inv(Step(s, t, c))
  {
    var a := s.activities[t];
    NotifyTallies(s.budget, a, c);
    NotifySum(s.budget, s.activities, t, Wake(a).(pc := Act(s.budget, a, c).pc));
  }

  lemma NotifyTallies(b: Budget, a: Activity, c: Choice)
    requires Act(b, a, c).notify
    ensures Notifier(Of(a))
    ensures Of(Wake(a).(pc := Act(b, a, c).pc)) == Tally(mutex := 1) && Act(b, a, c).budget == b
  {
    match a.pc
    case Fg(pc) => assert pc == FgCancelNotify;
    case Permit(pc) => assert pc.RelNotify?;
    case Other(pc) => assert pc == WakeNotify;
    case _ =>
  }

  lemma CancelInv(s: State, t: nat, c: Choice)
    requires Inv(s) && t < |s.activities| && s.activities[t].pc.Idle? && c.Cancel?
    ensures Inv(Step(s, t, c))
  {
    var ts := s.activities;
    var us := Flag(ts, t, c);
    if c.target < |ts| { var stuck := FlagTotal(ts, c.target, true); }
    var x := us[t].(pc := Other(WakeLock));
    var rest := Replace(us, t, x);
    assert Of(us[t]) == Tally();
    assert Of(x) == Tally(waker := 1);
  }

  lemma QuietInv(s: State, t: nat, c: Choice)
    requires Inv(s) && t < |s.activities|
    requires !Act(s.budget, s.activities[t], c).notify && !(s.activities[t].pc.Idle? && c.Cancel?)
    ensures Inv(Step(s, t, c))
  {
    var ts, a := s.activities, s.activities[t];
    var x := Step(s, t, c).activities[t];
    var rest := Replace(ts, t, x);
    assert Step(s, t, c).activities == ts[t := x];
    if a.pc.Idle? && c.Query? {
      assert Of(a) == Tally() == Of(x);
    } else {
      ActGood(s.budget, a, c, rest);
    }
  }

  lemma StepInv(s: State, t: nat, c: Choice)
    requires Inv(s)
    ensures Inv(Step(s, t, c))
  {
    if t < |s.activities| {
      if Act(s.budget, s.activities[t], c).notify {
        NotifyInv(s, t, c);
      } else if s.activities[t].pc.Idle? && c.Cancel? {
        CancelInv(s, t, c);
      } else {
        QuietInv(s, t, c);
      }
    }
  }

  lemma ActCapacity(b: Budget, a: Activity, c: Choice)
    ensures Act(b, a, c).budget.capacity == b.capacity
  {
    match a.pc
    case Idle =>
    case Fg(pc) =>
    case Bg(pc) =>
    case Permit(pc) =>
    case Other(pc) =>
  }

  lemma StepCapacity(s: State, t: nat, c: Choice)
    ensures Step(s, t, c).budget.capacity == s.budget.capacity
  {
    if t < |s.activities| { ActCapacity(s.budget, s.activities[t], c); }
  }

  lemma {:induction false} RunInv(s: State, schedule: seq<(nat, Choice)>)
    requires Inv(s)
    ensures Inv(Run(s, schedule)) && Run(s, schedule).budget.capacity == s.budget.capacity
    decreases |schedule|
  {
    if schedule != [] {
      var last := schedule[|schedule| - 1];
      var before := Run(s, schedule[..|schedule| - 1]);
      RunInv(s, schedule[..|schedule| - 1]);
      StepInv(before, last.0, last.1);
      StepCapacity(before, last.0, last.1);
    }
  }

  /** `s` is the state after some schedule of some number of activities. */
  ghost predicate Reachable(capacity: nat, s: State) {
    capacity >= 1 && exists activities: nat, schedule :: s == Run(Init(capacity, activities), schedule)
  }

  lemma ReachableInv(capacity: nat, s: State)
    requires Reachable(capacity, s)
    ensures Inv(s) && s.budget.capacity == capacity
  {
    var activities: nat, schedule :| s == Run(Init(capacity, activities), schedule);
    InitInv(capacity, activities);
    RunInv(Init(capacity, activities), schedule);
  }

  // ---------- What every reachable state promises ----------

  datatype Duty = ToRelease | ToWake | ToAdvance

  function Owed(d: Duty, l: Tally): int {
    match d
    case ToRelease => l.releaser
    case ToWake => l.waker
    case ToAdvance => l.units + l.releaser + l.waker + l.canceller + l.fgRunnable
  }

  /** A positive total names somebody who owes the action. */
  lemma {:induction false} Witness(ls: seq<Tally>, d: Duty) returns (i: nat)
    requires Owed(d, Sum(ls)) > 0
    ensures i < |ls| && Owed(d, ls[i]) > 0
  {
    if Owed(d, ls[0]) > 0 {
      i := 0;
    } else {
      i := Witness(ls[1..], d);
      i := i + 1;
    }
  }

  /** Has returned capacity and not yet notified. */
  predicate OwesNotification(a: Activity) {
    a.pc.Permit? && (a.pc.permit.RelLoad? || a.pc.permit.RelLock? || a.pc.permit.RelNotify?)
  }

  /** Has set a cancellation flag and not yet notified. */
  predicate OwesWake(a: Activity) {
    a.pc == Other(WakeLock) || a.pc == Other(WakeNotify)
  }

  predicate HoldsUnits(a: Activity) {
    || a.pc in {Fg(FgOkLeaveFg), Fg(FgOkLeave), Fg(FgOkUnlock)}
    || a.pc in {Bg(BgCount(true)), Bg(BgCount(false)), Bg(BgLeave), Bg(BgUnlock)}
    || (a.pc.Permit?
        && (a.pc.permit.Holding? || a.pc.permit.HoldingBg? || a.pc.permit.RelUncount? || a.pc.permit.RelAdd?))
  }

  /** A foreground waiter that is not blocked, or a cancelled one about to notify. */
  predicate ForegroundRuns(a: Activity) {
    a.pc in {Fg(FgPoll), Fg(FgTry), Fg(FgWoken), Fg(FgCancelLeaveFg), Fg(FgCancelLeave), Fg(FgCancelNotify)}
  }

  predicate Blocked(a: Activity) {
    a.pc == Fg(FgBlocked) || a.pc == Bg(BgBlocked)
  }

  lemma DutyMeaning(a: Activity)
    ensures Owed(ToRelease, Of(a)) > 0 ==> OwesNotification(a)
    ensures Owed(ToWake, Of(a)) > 0 ==> OwesWake(a)
    ensures Owed(ToAdvance, Of(a)) > 0 ==> OwesNotification(a) || OwesWake(a) || HoldsUnits(a) || ForegroundRuns(a)
  {
    match a.pc
    case Fg(pc) =>
    case Bg(pc) =>
    case Permit(pc) =>
    case Other(pc) =>
    case Idle =>
  }

  /** One activity's duties are part of the total. */
  lemma Member(s: State, t: nat) returns (rest: Tally)
    requires t < |s.activities|
    ensures Total(s.activities) == Of(s.activities[t]).Plus(rest) && Consistent(rest)
  {
    rest := Replace(s.activities, t, s.activities[t]);
  }

  lemma Someone(s: State, d: Duty) returns (r: nat)
    requires Owed(d, Total(s.activities)) > 0
    ensures r < |s.activities| && Owed(d, Of(s.activities[r])) > 0
  {
    r := Witness(Tallies(s.activities), d);
  }

  /** The units held by permits and the free units always add up to the capacity,
      the background counter is the number of background permits, and at most one
      activity is inside the mutex. */
  lemma Conservation(capacity: nat, s: State)
    requires Reachable(capacity, s)
    ensures s.budget.available + Total(s.activities).units == capacity
    ensures s.budget.background == Total(s.activities).bg
    ensures Total(s.activities).mutex <= 1
  {
    ReachableInv(capacity, s);
  }

  lemma RegisteredTally(a: Activity)
    ensures a.pc in {Fg(FgOkLeaveFg), Fg(FgCancelLeaveFg)} ==> Of(a).fg == 1
    ensures a.pc in {Fg(FgOkLeave), Fg(FgCancelLeave), Bg(BgLeave)} ==> Of(a).waiter == 1
    ensures a.pc.Permit? && a.pc.permit.RelUncount? ==> Of(a).bg == 1
  {
  }

  /** No counter is ever taken below zero: whoever is about to leave is still counted. */
  lemma NoUnderflow(capacity: nat, s: State, t: nat)
    requires Reachable(capacity, s) && t < |s.activities|
    ensures s.activities[t].pc in {Fg(FgOkLeaveFg), Fg(FgCancelLeaveFg)} ==> s.budget.foreground > 0
    ensures s.activities[t].pc in {Fg(FgOkLeave), Fg(FgCancelLeave), Bg(BgLeave)} ==> s.budget.waiters > 0
    ensures s.activities[t].pc.Permit? && s.activities[t].pc.permit.RelUncount? ==> s.budget.background > 0
  {
    ReachableInv(capacity, s);
    var rest := Member(s, t);
    RegisteredTally(s.activities[t]);
  }

  lemma BlockedTally(a: Activity)
    ensures a.pc == Fg(FgBlocked) ==> Of(a).fgStuck == 1 && (a.cancelled ==> Of(a).cancelStuck == 1)
    ensures a.pc == Bg(BgBlocked) ==> Of(a).bgStuck == 1
  {
  }

  /** No lost wakeup: a query stays blocked beside free capacity only while some
      releaser has returned that capacity and has yet to notify. */
  lemma NoLostWakeup(capacity: nat, s: State, t: nat)
    requires Reachable(capacity, s)
    requires t < |s.activities| && s.activities[t].pc == Fg(FgBlocked) && s.budget.available > 0
    ensures exists r :: 0 <= r < |s.activities| && OwesNotification(s.activities[r])
  {
    ReachableInv(capacity, s);
    var rest := Member(s, t);
    BlockedTally(s.activities[t]);
    var r := Someone(s, ToRelease);
    DutyMeaning(s.activities[r]);
  }

  /** A query that is blocked although its flag is set will be woken: its
      canceller has not notified yet. */
  lemma CancelledIsWoken(capacity: nat, s: State, t: nat)
    requires Reachable(capacity, s)
    requires t < |s.activities| && s.activities[t] == Activity(Fg(FgBlocked), true)
    ensures exists r :: 0 <= r < |s.activities| && OwesWake(s.activities[r])
  {
    ReachableInv(capacity, s);
    var rest := Member(s, t);
    BlockedTally(s.activities[t]);
    var r := Someone(s, ToWake);
    DutyMeaning(s.activities[r]);
  }

  /** Blocked background work always has somebody who will make it look again. */
  lemma BackgroundProgress(capacity: nat, s: State, t: nat)
    requires Reachable(capacity, s)
    requires t < |s.activities| && s.activities[t].pc == Bg(BgBlocked)
    ensures exists r :: 0 <= r < |s.activities| &&
              (OwesNotification(s.activities[r]) || OwesWake(s.activities[r])
               || HoldsUnits(s.activities[r]) || ForegroundRuns(s.activities[r]))
  {
    ReachableInv(capacity, s);
    var rest := Member(s, t);
    BlockedTally(s.activities[t]);
    TotalConsistent(s.activities);
    var r := Someone(s, ToAdvance);
    DutyMeaning(s.activities[r]);
  }

  lemma TotalConsistent(ts: seq<Activity>)
    ensures Consistent(Total(ts))
  {
    TalliesConsistent(ts);
    SumConsistent(Tallies(ts));
  }

  /** When every activity is either idle or blocked, nobody is blocked and all
      the capacity is free. */
  lemma NoDeadlock(capacity: nat, s: State)
    requires Reachable(capacity, s)
    requires forall r :: 0 <= r < |s.activities| ==> s.activities[r].pc.Idle? || Blocked(s.activities[r])
    ensures s.budget.available == capacity
    ensures forall r :: 0 <= r < |s.activities| ==> s.activities[r].pc.Idle?
  {
    ReachableInv(capacity, s);
    TotalConsistent(s.activities);
    if Total(s.activities).units > 0 {
      var r := Someone(s, ToAdvance);
      DutyMeaning(s.activities[r]);
    }
    forall t | 0 <= t < |s.activities| ensures s.activities[t].pc.Idle? {
      if s.activities[t].pc == Fg(FgBlocked) {
        NoLostWakeup(capacity, s, t);
      } else if s.activities[t].pc == Bg(BgBlocked) {
        BackgroundProgress(capacity, s, t);
      }
    }
  }

  /** Background work admitted while a query waits is the only background work. */
  lemma BackgroundShare(capacity: nat, s: State, t: nat, c: Choice)
    requires Reachable(capacity, s)
    requires t < |s.activities| && s.activities[t].pc in {Bg(BgCount(true)), Bg(BgCount(false))}
             && s.budget.foreground > 0
    ensures Total(s.activities).bg == 0
    ensures Total(Step(s, t, c).activities).bg == 1 && Step(s, t, c).budget.background == 1
  {
    ReachableInv(capacity, s);
    StepInv(s, t, c);
    var rest := Member(s, t);
  }
}
