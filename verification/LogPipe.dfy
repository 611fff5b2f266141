/**
 The output pipe of a local or ssh run.  The child writes into a bounded pipe; the one
 goroutine that claims the read end drains it; `Status` waits for the child.  Any
 number of `Logs` calls compete with one `Status` call for the claim.
 */
module LogPipe {
  import Runs

  datatype Variant = Local | Ssh

  /** The fields the mutex guards: the claim and the two pipe ends the parent holds. */
  datatype Handle = Handle(logStarted: bool, readOpen: bool, writeOpen: bool)

  /** Whether a `Logs` or `Status` critical section takes the claim. */
  predicate Claims(v: Variant, h: Handle) {
    !h.logStarted && (v.Local? ==> h.readOpen)
  }

  /** localState: `outR != nil` is `readOpen`, `outW != nil` is `writeOpen`. */
  class LocalState {
    var logStarted: bool
    var readOpen: bool
    var writeOpen: bool

    ghost function View(): Handle
      reads this
    {
      Handle(logStarted, readOpen, writeOpen)
    }

    constructor ()
      ensures View() == Handle(false, true, true)
    {
      logStarted, readOpen, writeOpen := false, true, true;
    }

    /** First critical section of Status, and the one of Logs. */
    method Claim() returns (mine: bool)
      modifies this
      ensures mine <==> Claims(Local, old(View()))
      ensures View() == if mine then old(View()).(logStarted := true) else old(View())
    {
      mine := false;
      if !logStarted && readOpen {
        logStarted := true;
        mine := true;
      }
    }

    /** Second critical section of Status, after the child has exited. */
    method CloseWrite() returns (waitFor: bool)
      modifies this
      ensures View() == old(View()).(writeOpen := false)
      ensures waitFor <==> logStarted
    {
      if writeOpen {
        writeOpen := false;
      }
      waitFor := logStarted;
    }

    /** Last critical section of Status. */
    method CloseRead()
      modifies this
      ensures View() == old(View()).(readOpen := false)
    {
      if readOpen {
        readOpen := false;
      }
    }
  }

  datatype Owner = Nobody | StatusCall | LogsCall
  /** A drainer is `Blocked` for good when its log writer never returns. */
  datatype Drainer = NotStarted | Copying | Blocked | Copied | Finished

  /** Where the Status call stands. */
  datatype Pc = Claiming | Waiting | ClosingWrite | AwaitingDrain | ClosingRead | Done

  /** `pending` is what the child has still to write, `written` what it has written,
      `pipe` what the kernel holds and `out` what the drainer has taken.  `killed`: the
      child was ended by its context or by Terminate.  `failed`: the log writer returned
      an error, so the copy stopped before end of file. */
  datatype State = State(
    pending: string,
    written: string,
    pipe: string,
    out: string,
    exited: bool,
    killed: bool,
    handle: Handle,
    owner: Owner,
    drainer: Drainer,
    drains: nat,
    doneCloses: nat,
    failed: bool,
    logsLeft: nat,
    pc: Pc)

  datatype Step =
    | ChildWrite(n: nat)
    | ChildBroken
    | ChildExit
    | Kill
    | Drain(n: nat)
    | EndOfFile
    | WriterFails
    | WriterBlocks
    | CloseDrain
    | Logs
    | Status

  /** `cap` is the pipe's capacity; `output` all the child will ever write. */
  datatype Params = Params(variant: Variant, cap: nat, output: string)
  {
    predicate Valid() {
      0 < cap
    }
  }

  ghost predicate Init(p: Params, s: State) {
    && s.pending == p.output && s.written == "" && s.pipe == "" && s.out == ""
    && !s.exited && !s.killed && !s.failed
    // The ssh adapter closes its copy of the write end right after starting the child.
    && s.handle == Handle(false, true, p.variant.Local?)
    && s.owner.Nobody? && s.drainer.NotStarted?
    && s.drains == 0 && s.doneCloses == 0
    && s.pc.Claiming?
  }

  ghost predicate Enabled(p: Params, s: State, step: Step) {
    match step
    case ChildWrite(n) => !s.exited && s.handle.readOpen && 0 < n <= |s.pending| && |s.pipe| + n <= p.cap
    // Writing to a pipe nobody can read any more kills the child.
    case ChildBroken => !s.exited && !s.handle.readOpen && s.pending != ""
    case ChildExit => !s.exited && s.pending == ""
    case Kill => !s.exited
    case Drain(n) => s.drainer.Copying? && 0 < n <= |s.pipe|
    case EndOfFile => s.drainer.Copying? && s.pipe == "" && s.exited && !s.handle.writeOpen
    // The copy calls the log writer only after it has read something.
    case WriterFails => s.drainer.Copying? && s.owner.LogsCall? && s.out != ""
    case WriterBlocks => s.drainer.Copying? && s.owner.LogsCall? && s.out != ""
    case CloseDrain => s.drainer.Copied?
    case Logs => 0 < s.logsLeft
    case Status =>
      match s.pc
      case Waiting => s.exited
      case AwaitingDrain => Awaits(p, s) ==> 0 < s.doneCloses
      case Done => false
      case _ => true
  }

  /** Whether Status waits for the drainer's done channel. */
  predicate Awaits(p: Params, s: State) {
    if p.variant.Local? then s.handle.logStarted else s.owner.StatusCall?
  }

  ghost function Started(p: Params, s: State, owner: Owner): State {
    if Claims(p.variant, s.handle)
    then s.(handle := s.handle.(logStarted := true), owner := owner, drainer := Copying, drains := s.drains + 1)
    else s
  }

  ghost function StatusStep(p: Params, s: State): State {
    match s.pc
    case Claiming => Started(p, s, StatusCall).(pc := Waiting)
    case Waiting => s.(pc := if p.variant.Local? then ClosingWrite else AwaitingDrain)
    case ClosingWrite => s.(handle := s.handle.(writeOpen := false), pc := AwaitingDrain)
    case AwaitingDrain => s.(pc := if p.variant.Local? then ClosingRead else Done)
    case ClosingRead => s.(handle := s.handle.(readOpen := false), pc := Done)
    case Done => s
  }

  ghost function Apply(p: Params, s: State, step: Step): State
    requires Enabled(p, s, step)
  {
    match step
    case ChildWrite(n) =>
      s.(pending := s.pending[n..], written := s.written + s.pending[..n], pipe := s.pipe + s.pending[..n])
    case ChildBroken => s.(exited := true)
    case ChildExit => s.(exited := true)
    case Kill => s.(exited := true, killed := true)
    case Drain(n) => s.(pipe := s.pipe[n..], out := s.out + s.pipe[..n])
    case EndOfFile => s.(drainer := Copied)
    case WriterFails => s.(drainer := Copied, failed := true)
    case WriterBlocks => s.(drainer := Blocked)
    case CloseDrain =>
      // The ssh drainers close the read end themselves; only goroutines with a done
      // channel close that.
      s.(drainer := Finished,
         handle := if p.variant.Ssh? then s.handle.(readOpen := false) else s.handle,
         doneCloses := if p.variant.Local? || s.owner.StatusCall? then s.doneCloses + 1 else s.doneCloses)
    case Logs => Started(p, s, LogsCall).(logsLeft := s.logsLeft - 1)
    case Status => StatusStep(p, s)
  }

  ghost predicate Next(p: Params, s: State, s': State) {
    exists step :: Enabled(p, s, step) && s' == Apply(p, s, step)
  }

  ghost function FirstState(p: Params): State -> bool {
    s => Init(p, s)
  }

  ghost function NextState(p: Params): (State, State) -> bool {
    (s, s') => Next(p, s, s')
  }

  ghost predicate Reachable(p: Params, s: State) {
    Runs.Reachable(FirstState(p), NextState(p), s)
  }

  lemma ReachInit(p: Params, s: State)
    requires Init(p, s)
    ensures Reachable(p, s)
  {
    Runs.ReachFirst(FirstState(p), NextState(p), s);
  }

  lemma ReachStep(p: Params, s: State, step: Step) returns (s': State)
    requires Reachable(p, s) && Enabled(p, s, step)
    ensures s' == Apply(p, s, step) && Reachable(p, s')
  {
    s' := Apply(p, s, step);
    assert Next(p, s, s');
    Runs.ReachNext(FirstState(p), NextState(p), s, s');
  }

  /** The claim, the channel and the pipe ends. */
  ghost predicate ClaimInv(p: Params, s: State) {
    && s.drains == (if s.handle.logStarted then 1 else 0)
    && (s.owner.Nobody? <==> !s.handle.logStarted)
    && (s.drainer.NotStarted? <==> !s.handle.logStarted)
    && (s.drainer.Blocked? ==> s.owner.LogsCall?)
    && (!s.pc.Claiming? ==> s.handle.logStarted)
    && s.doneCloses == (if s.drainer.Finished? && (p.variant.Local? || s.owner.StatusCall?) then 1 else 0)
    && (s.handle.writeOpen <==> p.variant.Local? && (s.pc.Claiming? || s.pc.Waiting? || s.pc.ClosingWrite?))
    && (s.handle.readOpen <==> if p.variant.Local? then !s.pc.Done? else !s.drainer.Finished?)
    && (p.variant.Ssh? ==> !s.pc.ClosingWrite? && !s.pc.ClosingRead?)
    && (p.variant.Local? && (s.pc.ClosingRead? || s.pc.Done?) ==> s.drainer.Finished?)
    && (p.variant.Ssh? && s.pc.Done? && s.owner.StatusCall? ==> s.drainer.Finished?)
  }

  /** The bytes: nothing written is lost or reordered on its way to the drainer, and all is
      written unless the child was killed or the log writer failed. */
  ghost predicate DataInv(p: Params, s: State) {
    && |s.pipe| <= p.cap
    && s.written + s.pending == p.output
    && (s.exited && !s.killed && !s.failed ==> s.pending == "")
    && (!s.pc.Claiming? && !s.pc.Waiting? ==> s.exited)
    && (s.failed ==> s.out != "" && s.owner.LogsCall? && (s.drainer.Copied? || s.drainer.Finished?))
    && s.out + s.pipe == s.written
    && (!s.failed && (s.drainer.Copied? || s.drainer.Finished?) ==> s.exited && s.pipe == "")
  }

  ghost predicate Inv(p: Params, s: State) {
    ClaimInv(p, s) && DataInv(p, s)
  }

  lemma ClaimStep(p: Params, s: State, step: Step)
    requires p.Valid() && Inv(p, s) && Enabled(p, s, step)
    ensures ClaimInv(p, Apply(p, s, step))
  {
  }

  lemma WriteStep(p: Params, s: State, n: nat)
    requires Inv(p, s) && Enabled(p, s, ChildWrite(n))
    ensures DataInv(p, Apply(p, s, ChildWrite(n)))
  {
    assert s.pending == s.pending[..n] + s.pending[n..];
    assert s.written + s.pending[..n] + s.pending[n..] == s.written + s.pending;
    assert s.out + (s.pipe + s.pending[..n]) == s.out + s.pipe + s.pending[..n];
  }

  lemma DrainStep(p: Params, s: State, n: nat)
    requires Inv(p, s) && Enabled(p, s, Drain(n))
    ensures DataInv(p, Apply(p, s, Drain(n)))
  {
    assert s.pipe == s.pipe[..n] + s.pipe[n..];
    assert s.out + s.pipe[..n] + s.pipe[n..] == s.out + s.pipe;
  }

  lemma DataStep(p: Params, s: State, step: Step)
    requires p.Valid() && Inv(p, s) && Enabled(p, s, step)
    ensures DataInv(p, Apply(p, s, step))
  {
    match step
    case ChildWrite(n) => WriteStep(p, s, n);
    case Drain(n) => DrainStep(p, s, n);
    case _ =>
  }

  lemma InitInv(p: Params, s: State)
    requires p.Valid() && Init(p, s)
    ensures Inv(p, s)
  {
    assert "" + s.pending == p.output && "" + "" == "";
  }

  lemma InvStep(p: Params, s: State, step: Step)
    requires p.Valid() && Inv(p, s) && Enabled(p, s, step)
    ensures Inv(p, Apply(p, s, step)) && Budget(Apply(p, s, step)) < Budget(s)
  {
    ClaimStep(p, s, step);
    DataStep(p, s, step);
    BudgetShrinks(p, s, step);
  }

  /** Every step keeps the invariant and uses up budget. */
  lemma StepsKeep(p: Params)
    requires p.Valid()
    ensures forall a :: FirstState(p)(a) ==> Inv(p, a)
    ensures forall a, b :: Inv(p, a) && NextState(p)(a, b) ==> Inv(p, b) && Budget(b) < Budget(a)
  {
    forall a | FirstState(p)(a) ensures Inv(p, a) {
      InitInv(p, a);
    }
    forall a, b | Inv(p, a) && NextState(p)(a, b) ensures Inv(p, b) && Budget(b) < Budget(a) {
      var step :| Enabled(p, a, step) && b == Apply(p, a, step);
      InvStep(p, a, step);
    }
  }

  lemma ReachableInv(p: Params, s: State)
    requires p.Valid() && Reachable(p, s)
    ensures Inv(p, s)
  {
    StepsKeep(p);
    Runs.Invariant(FirstState(p), NextState(p), a => Inv(p, a), s);
  }

  /** In every interleaving: one drainer at most, its channel closed at most once, and
      the read end closed only after the copy has ended. */
  lemma SingleClaimant(p: Params, s: State)
    requires p.Valid() && Reachable(p, s)
    ensures s.drains <= 1 && s.doneCloses <= 1
    ensures !s.handle.readOpen ==> s.drainer.Finished?
    ensures !s.pc.Claiming? ==> s.drains == 1
  {
    ReachableInv(p, s);
  }

  /** When a local Status returns, the drainer has taken exactly what the child wrote, in
      order, which is its whole output unless it was killed; an ssh drainer that has
      finished has too. */
  lemma NothingLost(p: Params, s: State)
    requires p.Valid() && Reachable(p, s) && !s.failed
    requires if p.variant.Local? || s.owner.StatusCall? then s.pc.Done? else s.drainer.Finished?
    ensures s.exited && s.out == s.written && s.written <= p.output
    ensures !s.killed ==> s.out == p.output
  {
    ReachableInv(p, s);
    assert s.out + "" == s.out && s.written + s.pending == p.output;
    if !s.killed {
      assert s.written + "" == s.written;
    }
  }

  /** Some step of the child, the drainer or Status can be taken, without help from a
      kill, a Logs call or a writer that fails or blocks. */
  ghost predicate CanMove(p: Params, s: State) {
    exists step: Step :: Unaided(step) && Enabled(p, s, step)
  }

  predicate Unaided(step: Step) {
    !step.Logs? && !step.WriterFails? && !step.WriterBlocks? && !step.Kill?
  }

  /** The local child is blocked until it is killed: its writer failed, nobody drains the pipe any
      more and the rest of the output does not fit. */
  predicate Doomed(p: Params, s: State) {
    p.variant.Local? && s.failed && !s.exited && p.cap < |s.pipe| + |s.pending|
  }

  /** The child has more to write and the pipe is full. */
  predicate ChildBlocked(p: Params, s: State) {
    !s.exited && s.pending != "" && |s.pipe| == p.cap
  }

  /** Status is never stuck except on a blocked child that nobody drains any more, because
      the log writer failed (local only) or blocks, or on the done channel of a drainer
      whose writer blocks (local only). */
  lemma Progress(p: Params, s: State)
    requires p.Valid() && Reachable(p, s) && !s.pc.Done?
    ensures !CanMove(p, s) <==>
            || (Doomed(p, s) && |s.pipe| == p.cap && s.drainer.Finished? && s.pc.Waiting?)
            || (s.drainer.Blocked? && s.pc.Waiting? && ChildBlocked(p, s))
            || (s.drainer.Blocked? && s.pc.AwaitingDrain? && p.variant.Local?)
  {
    ReachableInv(p, s);
    if s.drainer.Copied? {
      assert Enabled(p, s, CloseDrain);
    } else if !s.pc.Waiting? && !s.pc.AwaitingDrain? {
      assert Enabled(p, s, Status);
    } else if s.pc.AwaitingDrain? || s.exited {
      if s.drainer.Copying? && s.pipe != "" {
        assert Enabled(p, s, Drain(1));
      } else if s.drainer.Copying? && !s.handle.writeOpen {
        assert Enabled(p, s, EndOfFile);
      } else if !(s.drainer.Blocked? && s.pc.AwaitingDrain? && p.variant.Local?) {
        assert Enabled(p, s, Status);
      }
    } else if s.pending == "" {
      assert Enabled(p, s, ChildExit);
    } else if !s.handle.readOpen {
      assert Enabled(p, s, ChildBroken);
    } else if |s.pipe| < p.cap {
      assert Enabled(p, s, ChildWrite(1));
    } else if s.drainer.Copying? {
      assert Enabled(p, s, Drain(1));
    }
  }

  /** Every step, of anybody, uses up part of a finite budget. */
  ghost function Budget(s: State): nat {
    3 * |s.pending| + 2 * |s.pipe| + s.logsLeft + (if s.exited then 0 else 1) + DrainerRank(s.drainer) + PcRank(s.pc)
  }

  function DrainerRank(d: Drainer): nat {
    match d
    case NotStarted => 3
    case Copying => 2
    case Blocked => 1
    case Copied => 1
    case Finished => 0
  }

  function PcRank(pc: Pc): nat {
    match pc
    case Claiming => 5
    case Waiting => 4
    case ClosingWrite => 3
    case AwaitingDrain => 2
    case ClosingRead => 1
    case Done => 0
  }

  lemma BudgetShrinks(p: Params, s: State, step: Step)
    requires p.Valid() && Inv(p, s) && Enabled(p, s, step)
    ensures Budget(Apply(p, s, step)) < Budget(s)
  {
  }

  /** Every run is finite: it has at most as many steps as its first state's budget,
      so with Progress every run that is not doomed brings Status to its return.  Kills
      are among the steps. */
  lemma RunsAreBounded(p: Params, n: nat, s: State) returns (first: State)
    requires p.Valid() && Runs.Reaches(FirstState(p), NextState(p), n, s)
    ensures Init(p, first) && n + Budget(s) <= Budget(first)
  {
    StepsKeep(p);
    first := Runs.Bounded(FirstState(p), NextState(p), a => Inv(p, a), Budget, n, s);
  }

  /** Only a failing log writer dooms a run, exactly when what is still unread does not
      fit in the pipe; and only a kill takes the doom away again. */
  lemma DoomExactly(p: Params, s: State, step: Step)
    requires p.Valid() && Reachable(p, s) && Enabled(p, s, step)
    ensures Doomed(p, s) ==> (Doomed(p, Apply(p, s, step)) <==> !step.Kill?) && !Apply(p, s, step).pc.Done?
    ensures !Doomed(p, s) ==>
              (Doomed(p, Apply(p, s, step)) <==>
               step.WriterFails? && p.variant.Local? && !s.exited && p.cap < |s.pipe| + |s.pending|)
  {
    ReachableInv(p, s);
  }

  /** A local run can be doomed if and only if the output is more than one byte longer than
      the pipe: the failing writer has been handed at least one. */
  lemma DoomPossibleExactly(p: Params)
    requires p.Valid()
    ensures (exists s :: Reachable(p, s) && Doomed(p, s)) <==> p.variant.Local? && p.cap + 1 < |p.output|
  {
    forall s | Reachable(p, s) && Doomed(p, s) ensures p.variant.Local? && p.cap + 1 < |p.output| {
      ReachableInv(p, s);
      assert |s.out| + |s.pipe| + |s.pending| == |s.written| + |s.pending| == |p.output|;
    }
    if p.variant.Local? && p.cap + 1 < |p.output| {
      var s := WriterFailureDeadlocks(p);
    }
  }

  /** The steps other than a kill. */
  ghost function Unkilled(p: Params): (State, State) -> bool {
    (a, b) => exists step :: Enabled(p, a, step) && !step.Kill? && b == Apply(p, a, step)
  }

  /** Some continuation of `s` without a kill ends in `t`. */
  ghost predicate Leads(p: Params, s: State, t: State) {
    Runs.Reachable(a => a == s, Unkilled(p), t)
  }

  /** No continuation without a kill ends a doomed run: Status never returns. */
  lemma DoomedWithoutKill(p: Params, s: State, t: State)
    requires p.Valid() && Reachable(p, s) && Doomed(p, s) && Leads(p, s, t)
    ensures Doomed(p, t) && !t.pc.Done?
  {
    var stays := a => Reachable(p, a) && Doomed(p, a) && !a.pc.Done?;
    ReachableInv(p, s);
    forall a, b | stays(a) && Unkilled(p)(a, b) ensures stays(b) {
      var step :| Enabled(p, a, step) && !step.Kill? && b == Apply(p, a, step);
      var b' := ReachStep(p, a, step);
      DoomExactly(p, a, step);
    }
    Runs.Invariant(a => a == s, Unkilled(p), stays, t);
  }

  /** Once the child has exited, Status returns after finitely many steps. */
  lemma {:induction false} ExitedFinishes(p: Params, s: State) returns (t: State)
    requires p.Valid() && Reachable(p, s) && s.exited && (p.variant.Local? ==> !s.drainer.Blocked?)
    ensures Leads(p, s, t) && t.pc.Done?
    decreases Budget(s)
  {
    var first := a => a == s;
    Runs.ReachFirst(first, Unkilled(p), s);
    t := s;
    if !s.pc.Done? {
      Progress(p, s);
      var step: Step :| Unaided(step) && Enabled(p, s, step);
      var s' := ReachStep(p, s, step);
      ReachableInv(p, s);
      BudgetShrinks(p, s, step);
      t := ExitedFinishes(p, s');
      LeadsOn(p, s, s', t);
    }
  }

  lemma LeadsOn(p: Params, s: State, s': State, t: State)
    requires Unkilled(p)(s, s') && Leads(p, s', t)
    ensures Leads(p, s, t)
  {
    var reached := a => Leads(p, s, a);
    Runs.ReachFirst(a => a == s, Unkilled(p), s);
    Runs.ReachNext(a => a == s, Unkilled(p), s, s');
    forall a, b | reached(a) && Unkilled(p)(a, b) ensures reached(b) {
      Runs.ReachNext(a => a == s, Unkilled(p), a, b);
    }
    Runs.Invariant(a => a == s', Unkilled(p), reached, t);
  }

  /** A doomed run ends exactly by a kill: without one it never does, and after one Status
      returns. */
  lemma DoomEndsByKill(p: Params, s: State) returns (t: State)
    requires p.Valid() && Reachable(p, s) && Doomed(p, s)
    ensures forall u :: Leads(p, s, u) ==> !u.pc.Done?
    ensures Enabled(p, s, Kill) && Leads(p, Apply(p, s, Kill), t) && t.pc.Done?
  {
    forall u | Leads(p, s, u) ensures !u.pc.Done? {
      DoomedWithoutKill(p, s, u);
    }
    ReachableInv(p, s);
    var s' := ReachStep(p, s, Kill);
    t := ExitedFinishes(p, s');
  }

  /** A local drainer whose log writer blocks holds Status for ever: no continuation at all,
      kills included, lets it return.  The ssh variant returns once the child has exited,
      by itself or by a kill. */
  lemma BlockedWriterHoldsStatus(p: Params, s: State, t: State)
    requires p.Valid() && p.variant.Local? && Reachable(p, s) && s.drainer.Blocked? && !s.pc.Done?
    requires Runs.Reachable(a => a == s, NextState(p), t)
    ensures t.drainer.Blocked? && !t.pc.Done?
  {
    var stays := a => Reachable(p, a) && a.drainer.Blocked? && !a.pc.Done?;
    forall a, b | stays(a) && NextState(p)(a, b) ensures stays(b) {
      var step :| Enabled(p, a, step) && b == Apply(p, a, step);
      var b' := ReachStep(p, a, step);
      ReachableInv(p, a);
    }
    Runs.Invariant(a => a == s, NextState(p), stays, t);
  }

  /** As long as no writer blocks: the ssh variant closes the read end when its writer fails,
      so it never gets stuck; the local one does not unless a log writer failed. */
  lemma NeverDoomed(p: Params, s: State)
    requires p.Valid() && Reachable(p, s) && (p.variant.Ssh? || !s.failed) && !s.drainer.Blocked? && !s.pc.Done?
    ensures CanMove(p, s)
  {
    Progress(p, s);
  }

  /** A run in which the child writes one byte and a Logs call's drainer takes it. */
  lemma OneByteTaken(p: Params) returns (s: State)
    requires p.Valid() && p.output != ""
    ensures Reachable(p, s)
    ensures s == State(p.output[1..], p.output[..1], "", p.output[..1], false, false,
                       Handle(true, true, p.variant.Local?), LogsCall, Copying, 1, 0, false, 0, Claiming)
  {
    var handle := Handle(false, true, p.variant.Local?);
    s := State(p.output, "", "", "", false, false, handle, Nobody, NotStarted, 0, 0, false, 1, Claiming);
    ReachInit(p, s);
    s := ReachStep(p, s, Logs);
    s := ReachStep(p, s, ChildWrite(1));
    assert "" + p.output[..1] == p.output[..1];
    s := ReachStep(p, s, Drain(1));
    assert p.output[..1][1..] == "" && p.output[..1][..1] == p.output[..1];
  }

  /** A local run deadlocks when the log writer fails before a long output is read. */
  lemma WriterFailureDeadlocks(p: Params) returns (s: State)
    requires p.Valid() && p.variant.Local? && p.cap + 1 < |p.output|
    ensures Reachable(p, s) && Doomed(p, s) && s.pc.Waiting? && !CanMove(p, s)
  {
    s := OneByteTaken(p);
    s := ReachStep(p, s, WriterFails);
    s := ReachStep(p, s, CloseDrain);
    s := ReachStep(p, s, Status);
    s := ReachStep(p, s, ChildWrite(p.cap));
    Progress(p, s);
  }

  /** A drainer can be blocked whenever the child writes anything at all. */
  lemma WriterCanBlock(p: Params) returns (s: State)
    requires p.Valid() && p.output != ""
    ensures Reachable(p, s) && s.drainer.Blocked? && !s.pc.Done?
  {
    s := OneByteTaken(p);
    s := ReachStep(p, s, WriterBlocks);
  }
}
