/** The garbage collector racing with executors: records are read one by one, resources are
    listed afterwards, and runs start, finish and are cleaned up at any moment. */
module GcRuns {
  import opened Common
  import opened Gc
  import Runs

  /** Where one collection stands; `todo` are the records still to be loaded. */
  datatype Phase = Idle | Reading(todo: set<nat>) | Destroying(targets: set<nat>)

  /** `vms` are the VMs there are, each with its run id, `seen` the records as the collection loaded them.
      `dirty` are the records saved after the collection loaded them, or saved for the first
      time after it listed them; `listed` are the VMs that its listing found. */
  datatype State = State(
    store: map<nat, Record>,
    vms: map<nat, string>,
    seen: map<nat, Record>,
    dirty: set<nat>,
    listed: map<nat, string>,
    phase: Phase)

  datatype Step =
    | Save(id: nat, record: Record)
    | Remove(id: nat)
    | CreateVm(vm: nat, run: string)
    | LoseVm(vm: nat)
    | ListRecords
    | Load(id: nat)
    | ListVms(allowEmptyStore: bool)
    | Destroy(vm: nat)

  /** Some of these records protects the run. */
  ghost predicate Spared(records: map<nat, Record>, run: string) {
    exists id :: id in records && Protects(records[id], run)
  }

  /** The executor has persisted a record of the run that is not terminal. */
  ghost predicate Recorded(records: map<nat, Record>, run: string) {
    exists id :: id in records && records[id].Loaded? && records[id].planId == run && !IsTerminal(records[id].state)
  }

  const START := State(map[], map[], map[], {}, map[], Idle)

  ghost predicate Enabled(s: State, step: Step) {
    match step
    case Save(_, _) => true
    case Remove(id) => id in s.store
    // The executor saves the record first, but goes on when that fails.  VM ids are not
    // used again.
    case CreateVm(vm, run) => run != "" && vm !in s.vms && vm !in s.listed
    case LoseVm(vm) => vm in s.vms
    case ListRecords => s.phase.Idle?
    case Load(id) => s.phase.Reading? && id in s.phase.todo
    case ListVms(_) => s.phase.Reading? && s.phase.todo == {}
    case Destroy(vm) => s.phase.Destroying? && vm in s.phase.targets
  }

  ghost function Apply(s: State, step: Step): State
    requires Enabled(s, step)
  {
    match step
    case Save(id, record) =>
      var awaited := s.phase.Idle? || (s.phase.Reading? && id in s.phase.todo);
      s.(store := s.store[id := record], dirty := if awaited then s.dirty else s.dirty + {id})
    case Remove(id) => s.(store := s.store - {id})
    case CreateVm(vm, run) => s.(vms := s.vms[vm := run])
    case LoseVm(vm) => s.(vms := s.vms - {vm})
    case ListRecords => s.(seen := map[], dirty := {}, phase := Reading(s.store.Keys))
    // A record that is gone by now cannot be read, nor its plan id recovered.
    case Load(id) =>
      s.(seen := s.seen[id := if id in s.store then s.store[id] else Unreadable("")],
         phase := Reading(s.phase.todo - {id}))
    case ListVms(allowEmptyStore) =>
      s.(listed := s.vms,
         phase := Destroying(if s.seen == map[] && !allowEmptyStore then {}
                             else set vm | vm in s.vms && !Spared(s.seen, s.vms[vm])))
    case Destroy(vm) => s.(vms := s.vms - {vm}, phase := Destroying(s.phase.targets - {vm}))
  }

  ghost predicate Next(s: State, s': State) {
    exists step :: Enabled(s, step) && s' == Apply(s, step)
  }

  ghost function FirstState(): State -> bool {
    s => s == START
  }

  ghost function NextState(): (State, State) -> bool {
    (s, s') => Next(s, s')
  }

  ghost predicate Reachable(s: State) {
    Runs.Reachable(FirstState(), NextState(), s)
  }

  lemma ReachStep(s: State, step: Step) returns (s': State)
    requires Reachable(s) && Enabled(s, step)
    ensures s' == Apply(s, step) && Reachable(s')
  {
    s' := Apply(s, step);
    assert Next(s, s');
    Runs.ReachNext(FirstState(), NextState(), s, s');
  }

  // ---------------------------------------------------------------- the invariant

  /** A record that is neither awaited nor dirty is as the collection saw it. */
  ghost predicate SeenInv(s: State) {
    !s.phase.Idle? ==>
      forall id :: id in s.store && id !in s.dirty && !(s.phase.Reading? && id in s.phase.todo) ==>
        id in s.seen && s.seen[id] == s.store[id]
  }

  ghost predicate TargetInv(s: State) {
    s.phase.Destroying? ==>
      forall vm :: vm in s.phase.targets ==>
        vm in s.listed && !Spared(s.seen, s.listed[vm]) && (vm in s.vms ==> s.vms[vm] == s.listed[vm])
  }

  ghost predicate Inv(s: State) {
    SeenInv(s) && TargetInv(s)
  }

  lemma InvStep(s: State, step: Step)
    requires Inv(s) && Enabled(s, step)
    ensures Inv(Apply(s, step))
  {
  }

  lemma ReachableInv(s: State)
    requires Reachable(s)
    ensures Inv(s)
  {
    forall a, b | Inv(a) && NextState()(a, b) ensures Inv(b) {
      var step :| Enabled(a, step) && b == Apply(a, step);
      InvStep(a, step);
    }
    Runs.Invariant(FirstState(), NextState(), a => Inv(a), s);
  }

  // ---------------------------------------------------------------- what is destroyed

  /** What the listing makes targets: every VM that no loaded record spares, but none at all
      when no record was loaded and the empty store was not allowed. */
  lemma TargetsExactly(s: State, allowEmptyStore: bool, vm: nat)
    requires Enabled(s, ListVms(allowEmptyStore))
    ensures Enabled(Apply(s, ListVms(allowEmptyStore)), Destroy(vm)) <==>
            && vm in s.vms && (forall id :: id in s.seen ==> !Protects(s.seen[id], s.vms[vm]))
            && (allowEmptyStore || s.seen.Keys != {})
  {
  }

  /** A record protects the run now, did not when the collection loaded it (or did not exist
      when it listed the records), and was saved since. */
  ghost predicate BecameProtecting(s: State, run: string) {
    exists id ::
      && id in s.store && id in s.dirty && Protects(s.store[id], run)
      && !(id in s.seen && Protects(s.seen[id], run))
  }

  /** In every interleaving, a VM about to be destroyed existed at the listing, and its run
      is protected at that moment if and only if a record of it became protecting after the
      collection had read the records. */
  lemma DestroysProtectedExactly(s: State, vm: nat)
    requires Reachable(s) && Enabled(s, Destroy(vm))
    ensures vm in s.listed && (vm in s.vms ==> s.vms[vm] == s.listed[vm])
    ensures Spared(s.store, s.listed[vm]) <==> BecameProtecting(s, s.listed[vm])
  {
    ReachableInv(s);
    var run := s.listed[vm];
    if Spared(s.store, run) {
      var id :| id in s.store && Protects(s.store[id], run);
      assert id in s.dirty && !(id in s.seen && Protects(s.seen[id], run));
    }
  }

  /** No VM of a run is destroyed while a record protects it that was not saved again since
      the collection read it. */
  lemma SettledRunIsSafe(s: State, id: nat, vm: nat)
    requires Reachable(s) && id in s.store && id !in s.dirty && Enabled(s, Destroy(vm))
    ensures vm in s.listed && !Protects(s.store[id], s.listed[vm])
  {
    ReachableInv(s);
    assert s.seen[id] == s.store[id];
  }

  /** While a record was unreadable beyond recovery when it was loaded, nothing is destroyed. */
  lemma UnreadableStopsAll(s: State, id: nat, vm: nat)
    requires Reachable(s) && id in s.seen && s.seen[id] == Unreadable("")
    ensures !Enabled(s, Destroy(vm))
  {
    ReachableInv(s);
    assert forall run: string :: Protects(s.seen[id], run);
  }

  /** Snapshot, record, create, list, destroy: a run started during the collection loses its
      VM, although its record was written first. */
  lemma LateRunIsDestroyed(run: string, other: string) returns (s: State, after: State)
    requires run != ""
    ensures Reachable(s) && Enabled(s, Destroy(7)) && s.vms == map[7 := run] && Recorded(s.store, run)
    ensures after == Apply(s, Destroy(7)) && after.vms == map[] && Recorded(after.store, run)
  {
    s := ScannedOne(other);
    s := ReachStep(s, Save(1, Loaded(run, Running)));
    assert s.store[1] == Loaded(run, Running);
    s := ReachStep(s, CreateVm(7, run));
    assert 0 in s.seen && !Spared(s.seen, run) && 7 in s.vms;
    s := ReachStep(s, ListVms(false));
    after := Apply(s, Destroy(7));
    assert after.store[1] == Loaded(run, Running);
  }

  /** A run whose record could not be saved has nothing to protect it, whenever it started. */
  lemma UnsavedRunIsDestroyed(run: string, other: string) returns (s: State)
    requires run != "" && run != other
    ensures Reachable(s) && Enabled(s, Destroy(7)) && s.vms == map[7 := run] && !Recorded(s.store, run)
  {
    s := START;
    Runs.ReachFirst(FirstState(), NextState(), s);
    s := ReachStep(s, CreateVm(7, run));
    s := ReachStep(s, Save(0, Loaded(other, Completed)));
    s := ReachStep(s, ListRecords);
    assert s.store.Keys == {0};
    s := ReachStep(s, Load(0));
    assert s.phase.todo == {} && 0 in s.seen && !Spared(s.seen, run) && 7 in s.vms;
    s := ReachStep(s, ListVms(false));
  }

  /** A collection that has read a store with one finished run. */
  lemma ScannedOne(other: string) returns (s: State)
    ensures Reachable(s)
    ensures var records := map[0 := Loaded(other, Completed)];
            s == State(records, map[], records, {}, map[], Reading({}))
  {
    s := START;
    Runs.ReachFirst(FirstState(), NextState(), s);
    s := ReachStep(s, Save(0, Loaded(other, Completed)));
    s := ReachStep(s, ListRecords);
    assert s.store.Keys == {0};
    s := ReachStep(s, Load(0));
    assert s.phase.todo == {};
    assert s.seen == map[0 := Loaded(other, Completed)];
  }

  // ---------------------------------------------------------------- the same rule as Collect's

  /** What one collection destroys of what it has listed is what Collect destroys, given the
      loaded records in any order. */
  lemma SameRule(seen: map<nat, Record>, records: seq<Record>, r: Resource)
    requires forall rec :: rec in records <==> exists id :: id in seen && seen[id] == rec
    ensures Reapable(records, r) <==> Owned(r) && r.runId != "" && !Spared(seen, r.runId)
  {
    if Spared(seen, r.runId) {
      var id :| id in seen && Protects(seen[id], r.runId);
      assert seen[id] in records;
    }
    forall i | 0 <= i < |records| && Protects(records[i], r.runId) ensures Spared(seen, r.runId) {
      assert records[i] in records;
    }
  }
}
