/**
 The watchdog lease: dispatcher renews a deadline file on the VM and the VM destroys
 itself at the first poll that finds the deadline passed.  Times are nanoseconds on
 dispatcher's clock; the VM's clock differs from it by at most `skew`.
 */
module LeaseCore {

  const SECOND := 1_000_000_000
  const POLL_PERIOD := 60 * SECOND

  /** What `cat` finds at the deadline path.  `echo N > path` first truncates, so a
      poll or a reboot can catch the file empty. */
  datatype File = Missing | Empty | Value(deadline: int)

  /** Whole seconds, as `date +%s` and `Time.Unix` report them. */
  function Seconds(t: int): int {
    t / SECOND
  }

  /** The poll's test `[ "$NOW" -gt "$DEADLINE" ]`: a missing file reads as 0, an
      empty one makes the test an error, which counts as false. */
  predicate Expired(f: File, vmClock: int) {
    match f
    case Missing => Seconds(vmClock) > 0
    case Empty => false
    case Value(d) => Seconds(vmClock) > d
  }

  /** The renewal period of the setup loop. */
  function Interval(ttl: int): int {
    if ttl / 3 < SECOND then SECOND else ttl / 3
  }

  /** What a renewal issued at `issued` writes. */
  function Deadline(issued: int, ttl: int): int {
    Seconds(issued + ttl)
  }
}

/**
 Safety: a renewal loop against an arbitrary polling VM.  One step per event; time
 passes only in `Advance`, and never beyond a due tick, a call's latency bound or a
 runnable loop iteration.
 */
module LeaseSafety {
  import opened Common
  import Runs
  import opened LeaseCore

  /** `latency` bounds one renewal call from issue to return (its write lands in
      between); `skew` bounds how far the VM's clock is from dispatcher's.  The setup
      loop renews once before it starts its ticker (`immediate`), the confidential
      loop does not. */
  datatype Params = Params(ttl: int, latency: int, skew: int, immediate: bool)
  {
    predicate Valid() {
      3 * SECOND <= ttl && 0 <= latency && 0 <= skew
    }

    function Period(): int {
      ttl / 3
    }

    /** How late the ticker can start after the first renewal was issued. */
    function Head(): int {
      if immediate then latency else 0
    }
  }

  datatype Write = Sent | Truncated | Written
  datatype Call = Call(issued: int, write: Write)

  /** `ticker` is the next fire time, absent until an immediate first renewal has
      returned; `pending` is the ticker's one-slot channel; `anchor` is the issue time
      of the last renewal that landed; `lastLost` says the last returned call did not. */
  datatype State = State(
    now: int,
    file: File,
    call: Option<Call>,
    ticker: Option<int>,
    pending: bool,
    lastLost: bool,
    anchor: Option<int>)

  datatype Step =
    | Advance(dt: nat)
    | Fire
    | Issue
    | Truncate
    | Finish
    | Return

  /** The boot deadline is in the file and the loop is about to start. */
  ghost predicate Init(p: Params, s: State) {
    && s.file.Value?
    && s.call == (if p.immediate then Some(Call(s.now, Sent)) else None)
    && s.ticker == (if p.immediate then None else Some(s.now + Interval(p.ttl)))
    && !s.pending
    && !s.lastLost
    && s.anchor == None
  }

  ghost predicate Enabled(p: Params, s: State, step: Step) {
    match step
    case Advance(dt) =>
      && (s.call.Some? ==> s.now + dt <= s.call.value.issued + p.latency)
      && (s.ticker.Some? ==> s.now + dt <= s.ticker.value)
      && (s.call.None? && s.pending ==> dt == 0)
    case Fire => s.ticker == Some(s.now)
    case Issue => s.call.None? && s.pending
    case Truncate => s.call.Some? && s.call.value.write.Sent?
    case Finish => s.call.Some? && s.call.value.write.Truncated?
    // Once a renewal has landed, no two consecutive ones are lost.
    case Return => s.call.Some? && (s.anchor.Some? && !s.call.value.write.Written? ==> !s.lastLost)
  }

  ghost function Apply(p: Params, s: State, step: Step): State
    requires Enabled(p, s, step)
  {
    match step
    case Advance(dt) => s.(now := s.now + dt)
    // A tick that finds the channel full is dropped.
    case Fire => s.(pending := true, ticker := Some(s.now + Interval(p.ttl)))
    case Issue => s.(call := Some(Call(s.now, Sent)), pending := false)
    case Truncate => s.(call := Some(Call(s.call.value.issued, Truncated)), file := Empty)
    case Finish =>
      var issued := s.call.value.issued;
      s.(call := Some(Call(issued, Written)), file := Value(Deadline(issued, p.ttl)), anchor := Some(issued))
    case Return =>
      s.(call := None,
         lastLost := !s.call.value.write.Written?,
         ticker := if s.ticker.None? then Some(s.now + Interval(p.ttl)) else s.ticker)
  }

  ghost predicate Next(p: Params, s: State, s': State) {
    exists step :: Enabled(p, s, step) && s' == Apply(p, s, step)
  }

  ghost function FirstState(p: Params): State -> bool {
    s => Init(p, s)
  }

  ghost function NextState(p: Params): (State, State) -> bool {
    (s, s') => Next(p, s, s')
  }

  ghost predicate Reachable(p: Params, s: State) {
    Runs.Reachable(FirstState(p), NextState(p), s)
  }

  lemma ReachInit(p: Params, s: State)
    requires Init(p, s)
    ensures Reachable(p, s)
  {
    Runs.ReachFirst(FirstState(p), NextState(p), s);
  }

  lemma ReachStep(p: Params, s: State, step: Step) returns (s': State)
    requires Reachable(p, s) && Enabled(p, s, step)
    ensures s' == Apply(p, s, step) && Reachable(p, s')
  {
    s' := Apply(p, s, step);
    assert Next(p, s, s');
    Runs.ReachNext(FirstState(p), NextState(p), s, s');
  }

  /** A poll in this state, whatever the VM's clock shows, does not self-destruct. */
  ghost predicate NoPollExpires(p: Params, s: State) {
    forall clock :: s.now - p.skew <= clock <= s.now + p.skew ==> !Expired(s.file, clock)
  }

  /** Lease safety: once a renewal has landed, no poll of any run sees NOW > DEADLINE. */
  ghost predicate Safe(p: Params) {
    forall s :: Reachable(p, s) && s.anchor.Some? ==> NoPollExpires(p, s)
  }

  /** The timing condition: the ticker's late start, two periods, one call and the skew
      fit in the TTL, and a call ends before the next tick. */
  predicate FitsTtl(p: Params) {
    p.latency <= p.Period() && p.Head() + 2 * p.Period() + p.latency + p.skew <= p.ttl
  }

  /** Issue time of the call now unsettled, or of the next one. */
  ghost function NextIssue(s: State): int
    requires s.call.None? ==> s.ticker.Some?
  {
    if s.call.Some? then s.call.value.issued
    else if s.pending then s.now
    else s.ticker.value
  }

  ghost predicate TimingInv(p: Params, s: State) {
    && (s.call.Some? ==> s.call.value.issued <= s.now <= s.call.value.issued + p.latency)
    && (s.call.None? ==> s.ticker.Some? && s.now <= s.ticker.value)
    && (s.ticker.None? ==> p.immediate && !s.pending)
    && (s.ticker.None? && s.anchor.Some? ==> s.call.value.write.Written?)
    && (s.pending ==> s.ticker.value == s.now + p.Period())
    && (s.call.Some? && s.ticker.Some? ==>
          (if s.pending then s.now else s.ticker.value) == s.call.value.issued + p.Period())
  }

  ghost predicate Inv(p: Params, s: State) {
    && TimingInv(p, s)
    && (s.anchor.Some? ==>
          var landed := s.anchor.value;
          && (s.file == Empty || s.file == Value(Deadline(landed, p.ttl)))
          && (if s.call.Some? && s.call.value.write.Written? then landed == s.call.value.issued
              else NextIssue(s) <= landed + p.Head() + p.Period() + (if s.lastLost then p.Period() else 0)))
  }

  lemma InvStep(p: Params, s: State, step: Step)
    requires p.Valid() && FitsTtl(p) && Inv(p, s) && Enabled(p, s, step)
    ensures Inv(p, Apply(p, s, step))
  {
    assert Interval(p.ttl) == p.Period();
  }

  lemma ReachableInv(p: Params, s: State)
    requires p.Valid() && FitsTtl(p) && Reachable(p, s)
    ensures Inv(p, s)
  {
    forall a, b | Inv(p, a) && NextState(p)(a, b) ensures Inv(p, b) {
      var step :| Enabled(p, a, step) && b == Apply(p, a, step);
      InvStep(p, a, step);
    }
    Runs.Invariant(FirstState(p), NextState(p), a => Inv(p, a), s);
  }

  lemma FitsIsSafe(p: Params)
    requires p.Valid() && FitsTtl(p)
    ensures Safe(p)
  {
    forall s | Reachable(p, s) && s.anchor.Some? ensures NoPollExpires(p, s) {
      ReachableInv(p, s);
      assert s.now + p.skew <= s.anchor.value + p.ttl;
    }
  }

  /** A run to the return of a landed first renewal, `late` after it was issued. */
  lemma FirstRenewalReturns(p: Params, t0: int, late: nat) returns (s: State)
    requires p.Valid() && late <= p.Head()
    ensures Reachable(p, s)
    ensures s == State(t0 + late, Value(Deadline(t0, p.ttl)), None, Some(t0 + late + p.Period()), false, false,
                       Some(t0))
  {
    if p.immediate {
      s := State(t0, Value(0), Some(Call(t0, Sent)), None, false, false, None);
      ReachInit(p, s);
    } else {
      s := State(t0 - p.Period(), Value(0), None, Some(t0), false, false, None);
      ReachInit(p, s);
      s := NextTickIssues(p, s);
    }
    s := ReachStep(p, s, Truncate);
    s := ReachStep(p, s, Finish);
    s := ReachStep(p, s, Advance(late));
    s := ReachStep(p, s, Return);
  }

  lemma NextTickIssues(p: Params, s: State) returns (s': State)
    requires p.Valid() && Reachable(p, s)
    requires s.call.None? && !s.pending && s.ticker.Some? && s.now <= s.ticker.value
    ensures Reachable(p, s')
    ensures s' == s.(now := s.ticker.value, call := Some(Call(s.ticker.value, Sent)),
                     ticker := Some(s.ticker.value + p.Period()))
  {
    s' := ReachStep(p, s, Advance(s.ticker.value - s.now));
    s' := ReachStep(p, s', Fire);
    s' := ReachStep(p, s', Issue);
  }

  /** A call may stay in flight past the next tick, which then waits in the channel. */
  lemma CallOutlivesTick(p: Params, s: State, over: nat) returns (s': State)
    requires p.Valid() && Reachable(p, s)
    requires s.call.Some? && !s.pending && s.ticker.Some? && s.now <= s.ticker.value
    requires over <= p.Period() && s.ticker.value + over <= s.call.value.issued + p.latency
    ensures Reachable(p, s')
    ensures s' == s.(now := s.ticker.value + over, pending := true, ticker := Some(s.ticker.value + p.Period()))
  {
    s' := ReachStep(p, s, Advance(s.ticker.value - s.now));
    s' := ReachStep(p, s', Fire);
    s' := ReachStep(p, s', Advance(over));
  }

  lemma Kills(p: Params, s: State)
    requires p.Valid() && Reachable(p, s) && s.anchor.Some? && s.file == Value(0) && SECOND <= s.now + p.skew
    ensures !Safe(p)
  {
    assert Expired(s.file, s.now + p.skew);
  }

  /** The first renewal lands but returns late, the next one is lost, the third is
      still in flight at the poll. */
  lemma LateThirdRenewalKills(p: Params)
    requires p.Valid() && p.ttl < p.Head() + 2 * p.Period() + p.latency + p.skew
    requires p.immediate || p.latency <= p.Period()
    ensures !Safe(p)
  {
    var slack := Max(0, p.ttl + 1 - 2 * p.Period() - p.skew);
    var late2 := if p.immediate then slack / 2 else slack;
    // Issued so that the deadline is the last nanosecond of its second.
    var t0 := SECOND - 1 - p.ttl;
    var s := FirstRenewalReturns(p, t0, slack - late2);
    s := NextTickIssues(p, s);
    s := ReachStep(p, s, Return);
    s := NextTickIssues(p, s);
    s := ReachStep(p, s, Advance(late2));
    Kills(p, s);
  }

  /** Calls slower than the period push each other back until the third comes too late. */
  lemma SlowCallsKill(p: Params)
    requires p.Valid() && !p.immediate && p.Period() < p.latency
    ensures !Safe(p)
  {
    var t0 := SECOND - 1 - p.ttl;
    var s := State(t0 - p.Period(), Value(0), None, Some(t0), false, false, None);
    ReachInit(p, s);
    s := NextTickIssues(p, s);
    s := ReachStep(p, s, Truncate);
    s := ReachStep(p, s, Finish);
    s := CallOutlivesTick(p, s, 1);
    s := ReachStep(p, s, Return);
    s := ReachStep(p, s, Issue);
    s := CallOutlivesTick(p, s, 2);
    s := ReachStep(p, s, Return);
    s := ReachStep(p, s, Issue);
    s := CallOutlivesTick(p, s, 3);
    Kills(p, s);
  }

  /** Lease safety holds exactly when the schedule fits the TTL. */
  lemma SafetyExact(p: Params)
    requires p.Valid()
    ensures Safe(p) <==> FitsTtl(p)
  {
    if FitsTtl(p) {
      FitsIsSafe(p);
    } else if p.immediate || p.latency <= p.Period() {
      LateThirdRenewalKills(p);
    } else {
      SlowCallsKill(p);
    }
  }

  /** Call time plus skew within a third of the TTL is enough without an immediate
      renewal; with one, its own call time counts a second time. */
  lemma ThirdOfTtlIsEnough(p: Params)
    requires p.Valid() && p.Head() + p.latency + p.skew <= p.ttl / 3
    ensures Safe(p)
  {
    FitsIsSafe(p);
  }

  /** The setup loop is not safe with only one call time counted, because it arms the
      ticker after the immediate renewal has returned. */
  lemma OneCallTimeIsNotEnoughForSetup()
    ensures var p := Params(9 * SECOND, 2 * SECOND, SECOND, true);
            p.Valid() && p.latency + p.skew <= p.ttl / 3 && !Safe(p)
  {
    LateThirdRenewalKills(Params(9 * SECOND, 2 * SECOND, SECOND, true));
  }
}

/**
 The bound: a VM whose renewals stop dies.  Renewals are arbitrary here (they may stop
 for good at any moment), and so are reboots.
 */
module LeaseBound {
  import opened Common
  import Runs
  import opened LeaseCore

  datatype Params = Params(ttl: int, skew: int)
  {
    predicate Valid() {
      0 < ttl && 0 <= skew
    }
  }

  /** `lastIssue`/`lastWrite` are the issue and landing times of the last renewal that
      landed (the boot deadline counts as one issued at the VM's boot clock). */
  datatype Vm = Vm(
    now: int,
    alive: bool,
    up: bool,
    lastPoll: int,
    file: File,
    writing: Option<int>,
    lastIssue: int,
    lastWrite: int)

  datatype Step =
    | Advance(dt: nat)
    | Poll(offset: int)
    | Truncate(issued: int)
    | Finish
    | Abort
    | Remove
    | Reboot
    | BootUp(offset: int)

  /** The boot script has written its deadline and the service's first poll passed. */
  ghost predicate Init(p: Params, v: Vm) {
    && v.alive && v.up
    && SECOND + p.skew <= v.now
    && v.lastPoll == v.now == v.lastWrite
    && -p.skew <= v.lastIssue - v.now <= p.skew
    && v.file == Value(Seconds(v.lastIssue) + Seconds(p.ttl))
    && v.writing == None
  }

  ghost predicate Enabled(p: Params, v: Vm, step: Step) {
    && v.alive
    && match step
       case Advance(dt) => v.up ==> v.now + dt <= v.lastPoll + POLL_PERIOD
       case Poll(offset) => v.up && -p.skew <= offset <= p.skew
       case Truncate(issued) => v.up && v.writing.None? && issued <= v.now
       case Finish => v.writing.Some?
       case Abort => v.writing.Some?
       case Remove => v.file.Value?
       case Reboot => v.up
       case BootUp(offset) => !v.up && -p.skew <= offset <= p.skew
  }

  ghost function Apply(p: Params, v: Vm, step: Step): Vm
    requires Enabled(p, v, step)
  {
    match step
    case Advance(dt) => v.(now := v.now + dt)
    case Poll(offset) => v.(lastPoll := v.now, alive := !Expired(v.file, v.now + offset))
    case Truncate(issued) => v.(writing := Some(issued), file := Empty)
    case Finish =>
      v.(writing := None, file := Value(Deadline(v.writing.value, p.ttl)),
         lastIssue := v.writing.value, lastWrite := v.now)
    case Abort => v.(writing := None)
    case Remove => v.(file := Missing)
    // A write cut short leaves the file as the truncation left it; the file persists.
    case Reboot => v.(up := false, writing := None)
    // The relaunched loop polls at once.
    case BootUp(offset) => v.(up := true, lastPoll := v.now, alive := !Expired(v.file, v.now + offset))
  }

  ghost predicate Next(p: Params, v: Vm, v': Vm) {
    exists step :: Enabled(p, v, step) && v' == Apply(p, v, step)
  }

  ghost function FirstState(p: Params): Vm -> bool {
    v => Init(p, v)
  }

  ghost function NextState(p: Params): (Vm, Vm) -> bool {
    (v, v') => Next(p, v, v')
  }

  ghost predicate Reachable(p: Params, v: Vm) {
    Runs.Reachable(FirstState(p), NextState(p), v)
  }

  lemma ReachInit(p: Params, v: Vm)
    requires Init(p, v)
    ensures Reachable(p, v)
  {
    Runs.ReachFirst(FirstState(p), NextState(p), v);
  }

  lemma ReachStep(p: Params, v: Vm, step: Step) returns (v': Vm)
    requires Reachable(p, v) && Enabled(p, v, step)
    ensures v' == Apply(p, v, step) && Reachable(p, v')
  {
    v' := Apply(p, v, step);
    assert Next(p, v, v');
    Runs.ReachNext(FirstState(p), NextState(p), v, v');
  }

  /** The last moment a poll can pass. */
  function LastPass(p: Params, v: Vm): int {
    Max(v.lastWrite, v.lastIssue + p.ttl + SECOND + p.skew)
  }

  ghost predicate Inv(p: Params, v: Vm) {
    && SECOND + p.skew <= v.now
    && v.lastPoll <= v.now
    && (v.up && v.alive ==> v.now <= v.lastPoll + POLL_PERIOD)
    && (v.file.Value? ==> v.file.deadline <= Deadline(v.lastIssue, p.ttl))
    && (v.alive && !v.file.Empty? ==> v.lastPoll <= LastPass(p, v))
  }

  lemma InvStep(p: Params, v: Vm, step: Step)
    requires p.Valid() && Inv(p, v) && Enabled(p, v, step)
    ensures Inv(p, Apply(p, v, step))
  {
  }

  lemma ReachableInv(p: Params, v: Vm)
    requires p.Valid() && Reachable(p, v)
    ensures Inv(p, v)
  {
    forall a, b | Inv(p, a) && NextState(p)(a, b) ensures Inv(p, b) {
      var step :| Enabled(p, a, step) && b == Apply(p, a, step);
      InvStep(p, a, step);
    }
    Runs.Invariant(FirstState(p), NextState(p), a => Inv(p, a), v);
  }

  /** In every run a VM whose poll loop is up and whose deadline file is not empty is
      gone at most ttl + 61 s + skew after the last landed renewal was issued (or 60 s
      after that renewal landed, if it landed later than that); reboots do not help. */
  lemma Bounded(p: Params, v: Vm)
    requires p.Valid() && Reachable(p, v) && v.alive && v.up && !v.file.Empty?
    ensures v.now <= LastPass(p, v) + POLL_PERIOD
    ensures v.lastWrite <= v.lastIssue + p.ttl ==> v.now <= v.lastIssue + p.ttl + 61 * SECOND + p.skew
  {
    ReachableInv(p, v);
  }

  /** The first poll or reboot after the deadline, with no renewal in between, is fatal. */
  lemma FirstLatePollKills(p: Params, v: Vm, step: Step)
    requires p.Valid() && Reachable(p, v) && !v.file.Empty?
    requires step.Poll? || step.BootUp?
    requires Enabled(p, v, step)
    requires v.lastIssue + p.ttl + SECOND + p.skew <= v.now
    ensures !Apply(p, v, step).alive
  {
    ReachableInv(p, v);
  }

  /** The steps other than the start of a new renewal. */
  ghost function Unrenewed(p: Params): (Vm, Vm) -> bool {
    (a, b) => exists step :: Enabled(p, a, step) && !step.Truncate? && b == Apply(p, a, step)
  }

  /** Some continuation of `v` without a new renewal ends in `w`. */
  ghost predicate Leads(p: Params, v: Vm, w: Vm) {
    Runs.Reachable(a => a == v, Unrenewed(p), w)
  }

  predicate Immortal(v: Vm) {
    v.alive && v.file.Empty? && v.writing.None?
  }

  /** The condition on the file is exact: once it is empty and nobody is writing, every
      continuation without a new renewal leaves the VM alive and the file empty. */
  lemma EmptyFileNeverKills(p: Params, v: Vm, w: Vm)
    requires Immortal(v) && Leads(p, v, w)
    ensures Immortal(w)
  {
    Runs.Invariant(a => a == v, Unrenewed(p), Immortal, w);
  }

  lemma LeadsOn(p: Params, v: Vm, w: Vm, step: Step) returns (w': Vm)
    requires Leads(p, v, w) && Enabled(p, w, step) && !step.Truncate?
    ensures w' == Apply(p, w, step) && Leads(p, v, w')
  {
    w' := Apply(p, w, step);
    Runs.ReachNext(a => a == v, Unrenewed(p), w, w');
  }

  /** And such a VM has continuations that are up any number of poll periods later. */
  lemma {:induction false} EmptyFileOutlives(p: Params, v: Vm, periods: nat) returns (w: Vm)
    requires p.Valid() && Immortal(v)
    ensures Leads(p, v, w) && Immortal(w) && w.up && w.lastPoll == w.now
    ensures w.now == v.now + periods * POLL_PERIOD
  {
    if periods == 0 {
      w := FirstPoll(p, v);
    } else {
      w := EmptyFileOutlives(p, v, periods - 1);
      w := OnePeriod(p, v, w);
    }
  }

  lemma FirstPoll(p: Params, v: Vm) returns (w: Vm)
    requires p.Valid() && Immortal(v)
    ensures Leads(p, v, w) && Immortal(w) && w.up && w.lastPoll == w.now == v.now
  {
    Runs.ReachFirst(a => a == v, Unrenewed(p), v);
    w := LeadsOn(p, v, v, if v.up then Poll(0) else BootUp(0));
  }

  lemma OnePeriod(p: Params, v: Vm, w: Vm) returns (w': Vm)
    requires p.Valid() && Leads(p, v, w) && Immortal(w) && w.up && w.lastPoll == w.now
    ensures Leads(p, v, w') && Immortal(w') && w'.up && w'.lastPoll == w'.now == w.now + POLL_PERIOD
  {
    w' := LeadsOn(p, v, w, Advance(POLL_PERIOD));
    w' := LeadsOn(p, v, w', Poll(0));
  }

  /** One renewal interrupted by a reboot leaves such a VM, up. */
  lemma InterruptedWriteIsImmortal(p: Params) returns (v: Vm)
    requires p.Valid()
    ensures Reachable(p, v) && Immortal(v) && v.up
  {
    var t := SECOND + p.skew;
    v := Vm(t, true, true, t, Value(Seconds(t) + Seconds(p.ttl)), None, t, t);
    ReachInit(p, v);
    v := ReachStep(p, v, Truncate(t));
    v := ReachStep(p, v, Reboot);
    v := ReachStep(p, v, BootUp(0));
  }
}
