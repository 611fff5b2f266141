/** Every sequence of one-at-a-time microVM creations and teardowns on a host. */
module FirecrackerRuns {
  import opened Common
  import opened FirecrackerNet
  import opened Firecracker
  import Decimal

  /** The crc32, the run ids that occur, and what the host has besides these runs. */
  datatype Context = Context(crc: Crc, ids: set<string>, rules: multiset<Rule>, taps: set<nat>)

  /** No two run ids share a tap name, and nothing else on the host names a run's tap or
      a block of 172.16.0.0/16. */
  ghost predicate Separate(c: Context) {
    && (forall x, y :: x in c.ids && y in c.ids && c.crc(x) == c.crc(y) ==> x == y)
    && (forall x :: x in c.ids ==> c.crc(x) !in c.taps)
    && (forall r, x, n: nat :: r in c.rules && x in c.ids && n < SUBNETS ==> !Names(r, n, c.crc(x)))
  }

  datatype Vm = Vm(idx: nat, iface: string)

  /** The host, and the VMs that CreateVM returned and that were not torn down since. */
  datatype Sys = Sys(host: Host, live: map<string, Vm>)

  datatype Step = Create(id: string, env: CreateEnv) | Destroy(id: string, view: View)

  function Next(c: Context, s: Sys, step: Step): Sys {
    match step
    case Create(id, env) =>
      var (host, r) := Created(c.crc, s.host, id, env);
      Sys(host,
          if r.Some? then s.live[id := Vm(r.value, env.setup.iface)] else if env.checkOk then s.live - {id} else s.live)
    case Destroy(id, view) => Sys(TornDown(c.crc, s.host, id, view), s.live - {id})
  }

  function Exec(c: Context, s: Sys, steps: seq<Step>): Sys
    decreases |steps|
  {
    if steps == [] then s else Exec(c, Next(c, s, steps[0]), steps[1..])
  }

  function Start(c: Context): Sys {
    Sys(Host(c.rules, c.taps, map[]), map[])
  }

  // ---------------------------------------------------------------- CreateVM in parts

  /** From a cleared run directory on. */
  function FromFresh(c: Context, s: Sys, id: string, env: CreateEnv): Sys {
    match Allocated(c.crc, s.host, id, env.unread)
    case None => s
    case Some(idx) =>
      if env.leftover.Some? then s.(host := s.host.(dirs := s.host.dirs[id := Dir(env.leftover.value, "")]))
      else FromAllocated(c, Recording(s, id, idx), id, idx, env)
  }

  /** The subnet file is written. */
  function Recording(s: Sys, id: string, idx: nat): Sys {
    s.(host := s.host.(dirs := s.host.dirs[id := Dir(Some(Decimal.Itoa(idx)), "")]))
  }

  function FromAllocated(c: Context, s: Sys, id: string, idx: nat, env: CreateEnv): Sys {
    if !env.prepareOk then s
    else
      var h := SetUp(s.host, id, c.crc(id), idx, env.setup);
      if NetworkUp(s.host.taps, c.crc(id), env.setup) && env.launchOk
      then Sys(h, s.live[id := Vm(idx, env.setup.iface)])
      else Sys(TornDown(c.crc, h, id, env.after), s.live)
  }

  function Cleared(c: Context, s: Sys, id: string, env: CreateEnv): Sys {
    Sys(Fresh(c.crc, s.host, id, env.before), s.live - {id})
  }

  lemma CreateInParts(c: Context, s: Sys, id: string, env: CreateEnv)
    requires env.checkOk
    ensures Next(c, s, Create(id, env)) == FromFresh(c, Cleared(c, s, id, env), id, env)
  {
    var found := Allocated(c.crc, Cleared(c, s, id, env).host, id, env.unread);
    if found.Some? {
      var vm := Vm(found.value, env.setup.iface);
      assert (s.live - {id})[id := vm] == s.live[id := vm];
    }
  }

  // ---------------------------------------------------------------- disjoint blocks

  ghost predicate IndicesOk(dirs: map<string, Dir>, live: map<string, Vm>) {
    forall x :: x in live ==> x in dirs && Recorded(dirs[x]) == Some(live[x].idx)
  }

  ghost predicate Distinct(live: map<string, Vm>) {
    forall x, y :: x in live && y in live && x != y ==> live[x].idx != live[y].idx
  }

  /** Each live VM's block is the one its directory records, and no other live VM has it. */
  ghost predicate LiveApart(s: Sys) {
    IndicesOk(s.host.dirs, s.live) && Distinct(s.live)
  }

  /** No other live VM has this block. */
  ghost predicate Unshared(live: map<string, Vm>, id: string, idx: nat) {
    forall x :: x in live && x != id ==> live[x].idx != idx
  }

  /** Nothing fails in a creation from the allocation on. */
  predicate Completes(env: CreateEnv) {
    && env.checkOk && env.leftover.None? && env.prepareOk
    && env.setup.failAt >= 6 && env.setup.iface != "" && env.launchOk
  }

  /** A creation that completes does not probe into the block of a live VM whose directory
      its scan could not read. */
  ghost predicate TakesFree(c: Context, s: Sys, step: Step) {
    step.Create? && Completes(step.env) ==>
      var block := Allocated(c.crc, Cleared(c, s, step.id, step.env).host, step.id, step.env.unread);
      forall x :: x in s.live && x != step.id && x in step.env.unread ==> block != Some(s.live[x].idx)
  }

  lemma DistinctExactly(live: map<string, Vm>, id: string, vm: Vm)
    requires Distinct(live - {id})
    ensures Distinct(live[id := vm]) <==> Unshared(live, id, vm.idx)
  {
    var live' := live[id := vm];
    assert forall x :: x in live' && x != id ==> x in live - {id} && live'[x] == (live - {id})[x];
    if Distinct(live') {
      forall x | x in live && x != id ensures live[x].idx != vm.idx {
        assert x in live' && id in live' && live'[x] == live[x];
      }
    }
  }

  lemma OthersRecorded(dirs: map<string, Dir>, live: map<string, Vm>, id: string, dirs2: map<string, Dir>)
    requires IndicesOk(dirs, live)
    requires forall x :: x in dirs && x != id ==> x in dirs2 && dirs2[x] == dirs[x]
    ensures IndicesOk(dirs2, live - {id})
  {
  }

  lemma SetupRecorded(dirs: map<string, Dir>, live: map<string, Vm>, id: string, vm: Vm, dirs2: map<string, Dir>)
    requires IndicesOk(dirs, live - {id}) && id in dirs && Recorded(dirs[id]) == Some(vm.idx)
    requires dirs2 == dirs || dirs2 == dirs[id := dirs[id].(iface := vm.iface)]
    ensures IndicesOk(dirs2, live[id := vm])
  {
    IfaceKeepsIndex(dirs[id], vm.iface);
    assert forall x :: x in live && x != id ==> x in live - {id};
  }

  /** Creation keeps the live VMs' records. */
  lemma FreshRecords(c: Context, s: Sys, id: string, env: CreateEnv)
    requires IndicesOk(s.host.dirs, s.live) && id !in s.live
    ensures var s' := FromFresh(c, s, id, env);
            IndicesOk(s'.host.dirs, s'.live)
  {
    var found := Allocated(c.crc, s.host, id, env.unread);
    assert s.live - {id} == s.live;
    if found.Some? && env.leftover.None? {
      var s2 := Recording(s, id, found.value);
      RecordedReadsBack(found.value, "");
      OthersRecorded(s.host.dirs, s.live, id, s2.host.dirs);
      AllocatedRecords(c, s2, id, found.value, env);
    } else {
      OthersRecorded(s.host.dirs, s.live, id, FromFresh(c, s, id, env).host.dirs);
    }
  }

  lemma AllocatedRecords(c: Context, s: Sys, id: string, idx: nat, env: CreateEnv)
    requires IndicesOk(s.host.dirs, s.live) && id !in s.live && id in s.host.dirs &&
             Recorded(s.host.dirs[id]) == Some(idx)
    ensures var s' := FromAllocated(c, s, id, idx, env);
            IndicesOk(s'.host.dirs, s'.live)
  {
    assert s.live - {id} == s.live;
    var h := SetUp(s.host, id, c.crc(id), idx, env.setup);
    SetupRecorded(s.host.dirs, s.live, id, Vm(idx, env.setup.iface), h.dirs);
    OthersRecorded(s.host.dirs, s.live, id, h.dirs - {id});
  }

  /** CreateVM succeeds exactly when nothing fails and a block is free. */
  lemma SucceedsExactly(c: Context, s: Sys, id: string, env: CreateEnv)
    ensures var block := Allocated(c.crc, Cleared(c, s, id, env).host, id, env.unread);
            Created(c.crc, s.host, id, env).1 == if Completes(env) then block else None
  {
    assert c.crc(id) !in Cleared(c, s, id, env).host.taps;
  }

  lemma RecordedIsUsed(dirs: map<string, Dir>, self: string, unread: set<string>, x: string)
    requires x in dirs && x != self && x !in unread
    ensures Recorded(dirs[x]).Some? ==> Recorded(dirs[x]).value in Used(dirs, self, unread)
  {
  }

  /** Probing never lands on the block of a live VM whose directory the scan reads. */
  lemma ProbingAvoidsRead(c: Context, s: Sys, id: string, env: CreateEnv, x: string)
    requires LiveApart(s) && x in s.live && x != id && x !in env.unread
    ensures Allocated(c.crc, Cleared(c, s, id, env).host, id, env.unread) != Some(s.live[x].idx)
  {
    var dirs := Cleared(c, s, id, env).host.dirs;
    assert dirs[x] == s.host.dirs[x];
    RecordedIsUsed(dirs, id, env.unread, x);
  }

  lemma UnsharedExactly(c: Context, s: Sys, id: string, env: CreateEnv, idx: nat)
    requires LiveApart(s) && Completes(env)
    requires Allocated(c.crc, Cleared(c, s, id, env).host, id, env.unread) == Some(idx)
    ensures Unshared(s.live, id, idx) <==> TakesFree(c, s, Create(id, env))
  {
    forall x | x in s.live && x != id && x !in env.unread ensures s.live[x].idx != idx {
      ProbingAvoidsRead(c, s, id, env, x);
    }
  }

  /** A step keeps the live VMs' blocks apart if and only if it does not probe into the block
      of a live VM whose directory it could not read. */
  lemma StepApartExact(c: Context, s: Sys, step: Step)
    requires LiveApart(s)
    ensures LiveApart(Next(c, s, step)) <==> TakesFree(c, s, step)
  {
    match step
    case Create(id, env) => CreateApartExact(c, s, id, env);
    case Destroy(id, view) => OthersRecorded(s.host.dirs, s.live, id, Next(c, s, step).host.dirs);
  }

  lemma CreateApartExact(c: Context, s: Sys, id: string, env: CreateEnv)
    requires LiveApart(s)
    ensures LiveApart(Next(c, s, Create(id, env))) <==> TakesFree(c, s, Create(id, env))
  {
    SucceedsExactly(c, s, id, env);
    if env.checkOk {
      var s1 := Cleared(c, s, id, env);
      CreateInParts(c, s, id, env);
      OthersRecorded(s.host.dirs, s.live, id, s1.host.dirs);
      FreshRecords(c, s1, id, env);
      var r := Created(c.crc, s.host, id, env).1;
      if r.Some? {
        DistinctExactly(s.live, id, Vm(r.value, env.setup.iface));
        UnsharedExactly(c, s, id, env, r.value);
      }
    }
  }

  ghost predicate AllTakeFree(c: Context, s: Sys, steps: seq<Step>)
    decreases |steps|
  {
    steps == [] || (TakesFree(c, s, steps[0]) && AllTakeFree(c, Next(c, s, steps[0]), steps[1..]))
  }

  /** The blocks are apart in every state of the run. */
  ghost predicate AlwaysApart(c: Context, s: Sys, steps: seq<Step>)
    decreases |steps|
  {
    LiveApart(s) && (steps == [] || AlwaysApart(c, Next(c, s, steps[0]), steps[1..]))
  }

  /** Over a whole run the blocks of live VMs stay apart if and only if no creation probes
      into the block of a live VM whose directory it could not read. */
  lemma {:induction false} ApartExactly(c: Context, s: Sys, steps: seq<Step>)
    requires LiveApart(s)
    ensures AlwaysApart(c, s, steps) <==> AllTakeFree(c, s, steps)
    decreases |steps|
  {
    if steps != [] {
      StepApartExact(c, s, steps[0]);
      if LiveApart(Next(c, s, steps[0])) {
        ApartExactly(c, Next(c, s, steps[0]), steps[1..]);
      } else {
        NotApart(c, Next(c, s, steps[0]), steps[1..]);
      }
    }
  }

  lemma NotApart(c: Context, s: Sys, steps: seq<Step>)
    requires !LiveApart(s)
    ensures !AlwaysApart(c, s, steps)
  {
  }

  lemma {:induction false} ApartAtEnd(c: Context, s: Sys, steps: seq<Step>)
    requires AlwaysApart(c, s, steps)
    ensures LiveApart(Exec(c, s, steps))
    decreases |steps|
  {
    if steps != [] {
      ApartAtEnd(c, Next(c, s, steps[0]), steps[1..]);
    }
  }

  /** Every creation's scan reads the directories of the VMs that are live then. */
  ghost predicate ScansRead(c: Context, s: Sys, steps: seq<Step>)
    decreases |steps|
  {
    steps == [] || (ReadsLive(s, steps[0]) && ScansRead(c, Next(c, s, steps[0]), steps[1..]))
  }

  ghost predicate ReadsLive(s: Sys, step: Step) {
    step.Create? ==> forall x :: x in s.live && x != step.id ==> x !in step.env.unread
  }

  /** Then probing takes a free block at every creation. */
  lemma {:induction false} FullScansTakeFree(c: Context, s: Sys, steps: seq<Step>)
    requires LiveApart(s) && ScansRead(c, s, steps)
    ensures AllTakeFree(c, s, steps)
    decreases |steps|
  {
    if steps != [] {
      StepApartExact(c, s, steps[0]);
      FullScansTakeFree(c, Next(c, s, steps[0]), steps[1..]);
    }
  }

  /** Over every sequence of creations and teardowns whose scans read the live VMs'
      directories, whatever else fails and whatever ids collide, live VMs have disjoint /30
      blocks, and each VM's persisted index reads back as allocated. */
  lemma LiveBlocksDisjoint(c: Context, steps: seq<Step>)
    requires ScansRead(c, Start(c), steps)
    ensures var s := Exec(c, Start(c), steps);
            && (forall x :: x in s.live ==>
                  x in s.host.dirs && ReadIndex(c.crc, s.host.dirs[x], x) == s.live[x].idx < SUBNETS)
            && (forall x, y, d: nat, e: nat :: x in s.live && y in s.live && x != y && d < 4 && e < 4 ==>
                  Address(s.live[x].idx, d) != Address(s.live[y].idx, e))
  {
    FullScansTakeFree(c, Start(c), steps);
    ApartExactly(c, Start(c), steps);
    ApartAtEnd(c, Start(c), steps);
    var s := Exec(c, Start(c), steps);
    forall x, y, d: nat, e: nat | x in s.live && y in s.live && x != y && d < 4 && e < 4
      ensures Address(s.live[x].idx, d) != Address(s.live[y].idx, e)
    {
      assert Recorded(s.host.dirs[x]) == Some(s.live[x].idx) && Recorded(s.host.dirs[y]) == Some(s.live[y].idx);
      BlocksDisjoint(s.live[x].idx, s.live[y].idx, d, e);
    }
  }

  /** A creation in which nothing fails but the scan. */
  function Undisturbed(iface: string, unread: set<string>): CreateEnv {
    CreateEnv(true, View("", true, true), unread, None, true, Setup(iface, true, 6), true, View("", true, true))
  }

  /** It takes its own bucket when the scan reads nothing that uses it. */
  lemma TakesBucket(c: Context, s: Sys, id: string, iface: string, unread: set<string>)
    requires iface != "" && Bucket(c.crc, id) !in Used(Fresh(c.crc, s.host, id, View("", true, true)).dirs, id, unread)
    ensures var s' := Next(c, s, Create(id, Undisturbed(iface, unread)));
            && s'.live == s.live[id := Vm(Bucket(c.crc, id), iface)]
            && (forall x :: x in s.host.dirs && x != id ==> x in s'.host.dirs && s'.host.dirs[x] == s.host.dirs[x])
            && s'.host.dirs.Keys == s.host.dirs.Keys + {id}
  {
    var env := Undisturbed(iface, unread);
    CandidateIs(Bucket(c.crc, id), Bucket(c.crc, id), 0);
    assert Allocated(c.crc, Fresh(c.crc, s.host, id, env.before), id, unread) == Some(Bucket(c.crc, id));
    assert c.crc(id) !in Fresh(c.crc, s.host, id, env.before).taps;
  }

  /** Two creations whose ids have the same bucket, the second unable to read the first's
      directory: both VMs are live on one block. */
  lemma UnreadDirectoryShares(c: Context, a: string, b: string, iface: string)
    requires a != b && Bucket(c.crc, a) == Bucket(c.crc, b) && iface != ""
    ensures var steps := [Create(a, Undisturbed(iface, {})), Create(b, Undisturbed(iface, {a}))];
            var s := Exec(c, Start(c), steps);
            a in s.live && b in s.live && s.live[a] == s.live[b] == Vm(Bucket(c.crc, a), iface)
  {
    var first, second := Create(a, Undisturbed(iface, {})), Create(b, Undisturbed(iface, {a}));
    var s0 := Start(c);
    TakesBucket(c, s0, a, iface, {});
    var s1 := Next(c, s0, first);
    TakesBucket(c, s1, b, iface, {a});
    var s2 := Next(c, s1, second);
    var steps := [first, second];
    assert steps[1..] == [second] && [second][1..] == [];
    assert Exec(c, s0, steps) == Exec(c, s1, [second]) == Exec(c, s2, []) == s2;
  }

  // ---------------------------------------------------------------- the host invariant

  predicate RuleOf(c: Context, id: string, vm: Vm, r: Rule) {
    r == Masquerade(vm.idx, vm.iface) || r == Outbound(c.crc(id), vm.iface) || r == Inbound(vm.iface, c.crc(id))
  }

  ghost predicate Needed(c: Context, live: map<string, Vm>, r: Rule) {
    exists x :: x in live && RuleOf(c, x, live[x], r)
  }

  ghost predicate LiveOk(c: Context, live: map<string, Vm>) {
    && live.Keys <= c.ids && Distinct(live)
    && forall x :: x in live ==> live[x].idx < SUBNETS && live[x].iface != ""
  }

  /** The host has each live VM's rules once, and otherwise what it had. */
  ghost predicate RulesOk(c: Context, rules: multiset<Rule>, live: map<string, Vm>) {
    forall r: Rule :: rules[r] == c.rules[r] + if Needed(c, live, r) then 1 else 0
  }

  ghost predicate TapsOk(c: Context, taps: set<nat>, live: map<string, Vm>) {
    forall t: nat :: t in taps <==> t in c.taps || exists x :: x in live && c.crc(x) == t
  }

  ghost predicate Inv(c: Context, s: Sys) {
    LiveOk(c, s.live) && RulesOk(c, s.host.rules, s.live) && TapsOk(c, s.host.taps, s.live)
  }

  // ---------------------------------------------------------------- what a step may do

  /** The block and interface a teardown names: those on record as far as it can read them,
      else the hash bucket and the default route. */
  function Named(c: Context, s: Sys, id: string, v: View): Vm {
    Vm(NamedBlock(c.crc, s.host.dirs, id, v), NamedIface(s.host.dirs, id, v))
  }

  /** A teardown is harmless when it names a live VM's own block and interface, or those of
      no live VM. */
  ghost predicate Harmless(c: Context, s: Sys, id: string, v: View) {
    if id in s.live then s.live[id] == Named(c, s, id, v)
    else forall x :: x in s.live ==> s.live[x] != Named(c, s, id, v)
  }

  /** From a cleared directory on: a creation that succeeds takes no live VM's block, and one
      that fails after its setup undoes it. */
  ghost predicate CompletesWell(c: Context, s: Sys, id: string, env: CreateEnv) {
    var found := Allocated(c.crc, s.host, id, env.unread);
    found.Some? && env.leftover.None? && env.prepareOk ==>
      var h := Recording(s, id, found.value).host;
      if NetworkUp(h.taps, c.crc(id), env.setup) && env.launchOk then Unshared(s.live, id, found.value)
      else Undoes(c.crc, h, id, found.value, env.setup, env.after)
  }

  ghost predicate Allowed(c: Context, s: Sys, step: Step) {
    match step
    case Create(id, env) =>
      && id in c.ids
      && (env.checkOk ==> Harmless(c, s, id, env.before) && CompletesWell(c, Cleared(c, s, id, env), id, env))
    case Destroy(id, view) => id in c.ids && Harmless(c, s, id, view)
  }

  ghost predicate AllAllowed(c: Context, s: Sys, steps: seq<Step>)
    decreases |steps|
  {
    steps == [] || (Allowed(c, s, steps[0]) && AllAllowed(c, Next(c, s, steps[0]), steps[1..]))
  }

  // ---------------------------------------------------------------- teardowns

  lemma RemovedMember(block: nat, iface: string, tap: nat, r: Rule)
    ensures Removed(block, iface, tap)[r] <= 1
    ensures r in Removed(block, iface, tap) <==>
            iface != "" && (r == Masquerade(block, iface) || r == Outbound(tap, iface) || r == Inbound(iface, tap))
  {
    RemovedCounts(block, iface, tap, r);
  }

  /** Tearing down a live VM removes its three rules. */
  lemma LiveRules(c: Context, rules: multiset<Rule>, live: map<string, Vm>, id: string)
    requires Separate(c) && LiveOk(c, live) && RulesOk(c, rules, live) && id in live
    ensures RulesOk(c, rules - Removed(live[id].idx, live[id].iface, c.crc(id)), live - {id})
  {
    var vm := live[id];
    var left := rules - Removed(vm.idx, vm.iface, c.crc(id));
    forall r: Rule ensures left[r] == c.rules[r] + if Needed(c, live - {id}, r) then 1 else 0 {
      RemovedMember(vm.idx, vm.iface, c.crc(id), r);
      if RuleOf(c, id, vm, r) {
        assert Needed(c, live, r);
        assert Names(r, vm.idx, c.crc(id));
        assert c.rules[r] == 0;
        OthersNeedOthers(c, live, id, r);
      } else {
        assert Needed(c, live - {id}, r) <==> Needed(c, live, r) by {
          if x :| x in live && RuleOf(c, x, live[x], r) {
            assert x in live - {id};
          }
        }
      }
    }
  }

  lemma OthersNeedOthers(c: Context, live: map<string, Vm>, id: string, r: Rule)
    requires Separate(c) && LiveOk(c, live) && id in live && RuleOf(c, id, live[id], r)
    ensures !Needed(c, live - {id}, r)
  {
    if x :| x in live - {id} && RuleOf(c, x, (live - {id})[x], r) {
      assert false;
    }
  }

  /** Tearing down a run that is not live removes no rule, exactly when it is harmless. */
  lemma IdleTeardownExact(c: Context, s: Sys, id: string, v: View)
    requires Separate(c) && Inv(c, s) && id in c.ids && id !in s.live
    ensures TornDown(c.crc, s.host, id, v).rules == s.host.rules <==> Harmless(c, s, id, v)
  {
    var vm := Named(c, s, id, v);
    if Harmless(c, s, id, v) {
      forall r | r in Removed(vm.idx, vm.iface, c.crc(id)) ensures r !in s.host.rules {
        RemovedMember(vm.idx, vm.iface, c.crc(id), r);
        NotNeeded(c, s, id, vm, r);
        assert Names(r, vm.idx, c.crc(id));
      }
    } else {
      var x :| x in s.live && s.live[x] == vm;
      HarmfulTeardown(c, s, id, x);
    }
  }

  lemma HarmfulTeardown(c: Context, s: Sys, id: string, x: string)
    requires Inv(c, s) && x in s.live
    ensures s.host.rules - Removed(s.live[x].idx, s.live[x].iface, c.crc(id)) != s.host.rules
  {
    var vm := s.live[x];
    var r := Masquerade(vm.idx, vm.iface);
    assert RuleOf(c, x, vm, r);
    assert s.host.rules[r] >= 1;
    RemovedMember(vm.idx, vm.iface, c.crc(id), r);
    var left := s.host.rules - Removed(vm.idx, vm.iface, c.crc(id));
    assert left[r] < s.host.rules[r];
  }

  lemma NotNeeded(c: Context, s: Sys, id: string, vm: Vm, r: Rule)
    requires Separate(c) && Inv(c, s) && id in c.ids && id !in s.live
    requires (forall x :: x in s.live ==> s.live[x] != vm) && RuleOf(c, id, vm, r)
    ensures !Needed(c, s.live, r)
  {
    if x :| x in s.live && RuleOf(c, x, s.live[x], r) {
      assert false;
    }
  }

  lemma TeardownRules(c: Context, s: Sys, id: string, v: View)
    requires Separate(c) && Inv(c, s) && id in c.ids && Harmless(c, s, id, v)
    ensures RulesOk(c, TornDown(c.crc, s.host, id, v).rules, s.live - {id})
  {
    if id in s.live {
      LiveRules(c, s.host.rules, s.live, id);
    } else {
      IdleTeardownExact(c, s, id, v);
      assert s.live - {id} == s.live;
    }
  }

  lemma TapsAfterTeardown(c: Context, taps: set<nat>, live: map<string, Vm>, id: string)
    requires Separate(c) && live.Keys <= c.ids && id in c.ids && TapsOk(c, taps, live)
    ensures TapsOk(c, taps - {c.crc(id)}, live - {id})
  {
    var live' := live - {id};
    forall t: nat ensures t in taps - {c.crc(id)} <==> t in c.taps || exists x :: x in live' && c.crc(x) == t {
      if t in taps - {c.crc(id)} && t !in c.taps {
        var x :| x in live && c.crc(x) == t;
        assert x in live';
      }
    }
  }

  lemma TeardownKeeps(c: Context, s: Sys, id: string, v: View)
    requires Separate(c) && Inv(c, s) && id in c.ids && Harmless(c, s, id, v)
    ensures Inv(c, Sys(TornDown(c.crc, s.host, id, v), s.live - {id}))
  {
    TapsAfterTeardown(c, s.host.taps, s.live, id);
    TeardownRules(c, s, id, v);
  }

  /** A teardown keeps the invariant if and only if it is harmless. */
  lemma DestroyExact(c: Context, s: Sys, id: string, v: View)
    requires Separate(c) && Inv(c, s) && id in c.ids
    ensures Inv(c, Next(c, s, Destroy(id, v))) <==> Harmless(c, s, id, v)
  {
    if Harmless(c, s, id, v) {
      TeardownKeeps(c, s, id, v);
    } else if id in s.live {
      LeftBehind(c, s, id, v);
    } else {
      IdleTeardownBreaks(c, s, id, v);
    }
  }

  lemma IdleTeardownBreaks(c: Context, s: Sys, id: string, v: View)
    requires Separate(c) && Inv(c, s) && id in c.ids && id !in s.live && !Harmless(c, s, id, v)
    ensures !RulesOk(c, TornDown(c.crc, s.host, id, v).rules, s.live - {id})
  {
    IdleTeardownExact(c, s, id, v);
    assert s.live - {id} == s.live;
    RulesDetermined(c, TornDown(c.crc, s.host, id, v).rules, s.host.rules, s.live);
  }

  lemma RulesDetermined(c: Context, a: multiset<Rule>, b: multiset<Rule>, live: map<string, Vm>)
    requires RulesOk(c, b, live)
    ensures RulesOk(c, a, live) <==> a == b
  {
    if a != b {
      assert exists r: Rule :: a[r] != b[r];
    }
  }

  /** A teardown that names another block or interface leaves the VM's NAT rule behind. */
  lemma LeftBehind(c: Context, s: Sys, id: string, v: View)
    requires Separate(c) && Inv(c, s) && id in c.ids && id in s.live && Named(c, s, id, v) != s.live[id]
    ensures !RulesOk(c, TornDown(c.crc, s.host, id, v).rules, s.live - {id})
  {
    var vm, named := s.live[id], Named(c, s, id, v);
    var r := Masquerade(vm.idx, vm.iface);
    assert RuleOf(c, id, vm, r) && Names(r, vm.idx, c.crc(id));
    RemovedMember(named.idx, named.iface, c.crc(id), r);
    OthersNeedOthers(c, s.live, id, r);
    assert s.host.rules[r] == c.rules[r] + 1;
  }

  // ---------------------------------------------------------------- creations

  /** Nothing on the host names the tap of a run that is not live, or a block that is no
      live VM's. */
  lemma Unnamed(c: Context, s: Sys, id: string, idx: nat)
    requires Separate(c) && Inv(c, s) && id in c.ids && id !in s.live && idx < SUBNETS && Unshared(s.live, id, idx)
    ensures c.crc(id) !in s.host.taps
    ensures forall r :: r in s.host.rules ==> !Names(r, idx, c.crc(id))
  {
    forall r | r in s.host.rules ensures !Names(r, idx, c.crc(id)) {
      if Needed(c, s.live, r) {
        var x :| x in s.live && RuleOf(c, x, s.live[x], r);
        assert c.crc(x) != c.crc(id) && s.live[x].idx != idx;
      } else {
        assert r in c.rules;
      }
    }
  }

  lemma SuccessRules(c: Context, rules: multiset<Rule>, live: map<string, Vm>, id: string, vm: Vm)
    requires RulesOk(c, rules, live) && id !in live
    requires forall r :: r in rules ==> !Names(r, vm.idx, c.crc(id))
    ensures RulesOk(c, rules + Added(vm.idx, vm.iface, c.crc(id), 3), live[id := vm])
  {
    var live' := live[id := vm];
    var rules' := rules + Added(vm.idx, vm.iface, c.crc(id), 3);
    forall r: Rule ensures rules'[r] == c.rules[r] + if Needed(c, live', r) then 1 else 0 {
      PrefixCounts(vm.idx, vm.iface, c.crc(id), 3, r);
      if RuleOf(c, id, vm, r) {
        assert live'[id] == vm;
        assert Needed(c, live', r);
        assert Names(r, vm.idx, c.crc(id));
        assert rules[r] == 0;
      } else {
        NeededByOthers(c, live, id, vm, r);
      }
    }
  }

  lemma NeededByOthers(c: Context, live: map<string, Vm>, id: string, vm: Vm, r: Rule)
    requires id !in live && !RuleOf(c, id, vm, r)
    ensures Needed(c, live[id := vm], r) <==> Needed(c, live, r)
  {
    var live' := live[id := vm];
    if x :| x in live && RuleOf(c, x, live[x], r) {
      assert x in live' && live'[x] == live[x];
    }
  }

  lemma SuccessTaps(c: Context, taps: set<nat>, live: map<string, Vm>, id: string, vm: Vm)
    requires TapsOk(c, taps, live) && id !in live
    ensures TapsOk(c, taps + {c.crc(id)}, live[id := vm])
  {
    var live' := live[id := vm];
    forall t: nat ensures t in taps + {c.crc(id)} <==> t in c.taps || exists x :: x in live' && c.crc(x) == t {
      if t == c.crc(id) {
        assert id in live';
      } else if x :| x in live && c.crc(x) == t {
        assert x in live';
      }
    }
  }

  /** A creation that succeeds keeps the invariant if and only if no live VM has its block. */
  lemma SuccessExact(c: Context, s: Sys, id: string, idx: nat, e: Setup)
    requires Separate(c) && Inv(c, s) && id in c.ids && id !in s.live && idx < SUBNETS
    requires NetworkUp(s.host.taps, c.crc(id), e)
    ensures Inv(c, Sys(SetUp(s.host, id, c.crc(id), idx, e), s.live[id := Vm(idx, e.iface)])) <==>
            Unshared(s.live, id, idx)
  {
    assert s.live - {id} == s.live;
    DistinctExactly(s.live, id, Vm(idx, e.iface));
    if Unshared(s.live, id, idx) {
      Unnamed(c, s, id, idx);
      SuccessRules(c, s.host.rules, s.live, id, Vm(idx, e.iface));
      SuccessTaps(c, s.host.taps, s.live, id, Vm(idx, e.iface));
    }
  }

  lemma NotLiveNoTap(c: Context, s: Sys, id: string)
    requires Separate(c) && Inv(c, s) && id in c.ids && id !in s.live
    ensures c.crc(id) !in s.host.taps
  {
  }

  /** A creation that fails after its setup keeps the invariant if and only if it undoes it. */
  lemma RollbackExact(c: Context, s: Sys, id: string, idx: nat, e: Setup, after: View)
    requires Separate(c) && Inv(c, s) && id in c.ids && id !in s.live && idx < SUBNETS
    requires id in s.host.dirs && s.host.dirs[id].iface == ""
    ensures Inv(c, Sys(TornDown(c.crc, SetUp(s.host, id, c.crc(id), idx, e), id, after), s.live))
            <==> Undoes(c.crc, s.host, id, idx, e, after)
  {
    NotLiveNoTap(c, s, id);
    TeardownExact(c.crc, s.host, id, idx, e, after);
    SetupThenTeardown(c.crc, s.host, id, idx, e, after);
    RulesDetermined(c, TornDown(c.crc, SetUp(s.host, id, c.crc(id), idx, e), id, after).rules, s.host.rules, s.live);
  }

  /** From a cleared directory on, a creation keeps the invariant if and only if it
      completes well. */
  lemma FreshExact(c: Context, s: Sys, id: string, env: CreateEnv)
    requires Separate(c) && Inv(c, s) && id in c.ids && id !in s.live
    ensures Inv(c, FromFresh(c, s, id, env)) <==> CompletesWell(c, s, id, env)
  {
    var found := Allocated(c.crc, s.host, id, env.unread);
    if found.Some? && env.leftover.None? && env.prepareOk {
      var s2 := Recording(s, id, found.value);
      if NetworkUp(s2.host.taps, c.crc(id), env.setup) && env.launchOk {
        SuccessExact(c, s2, id, found.value, env.setup);
      } else {
        RollbackExact(c, s2, id, found.value, env.setup, env.after);
      }
    }
  }

  lemma CreateKeeps(c: Context, s: Sys, id: string, env: CreateEnv)
    requires Separate(c) && Inv(c, s) && Allowed(c, s, Create(id, env))
    ensures Inv(c, Next(c, s, Create(id, env)))
  {
    if env.checkOk {
      TeardownKeeps(c, s, id, env.before);
      CreateInParts(c, s, id, env);
      FreshExact(c, Cleared(c, s, id, env), id, env);
    }
  }

  /** A creation adds no NAT rule of a block it does not take. */
  lemma NeverAdded(c: Context, s: Sys, id: string, env: CreateEnv, r: Rule)
    requires r.Masquerade? && Allocated(c.crc, s.host, id, env.unread) != Some(r.block) && r !in s.host.rules
    ensures r !in FromFresh(c, s, id, env).host.rules
  {
    var found := Allocated(c.crc, s.host, id, env.unread);
    if found.Some? {
      PrefixCounts(found.value, env.setup.iface, c.crc(id), RulesAdded(s.host.taps, c.crc(id), env.setup), r);
    }
  }

  /** A creation whose clearing teardown names a live VM's block and interface cuts that VM
      off, whatever happens next, unless it takes that very block. */
  lemma CollidingCreateCutsNat(c: Context, s: Sys, id: string, env: CreateEnv, victim: string)
    requires Separate(c) && Inv(c, s) && id in c.ids && id !in s.live && env.checkOk
    requires victim in s.live && s.live[victim] == Named(c, s, id, env.before)
    ensures victim in s.live && victim in Next(c, s, Create(id, env)).live
    ensures Masquerade(s.live[victim].idx, s.live[victim].iface) in s.host.rules
    ensures Allocated(c.crc, Cleared(c, s, id, env).host, id, env.unread) != Some(s.live[victim].idx) ==>
              Masquerade(s.live[victim].idx, s.live[victim].iface) !in Created(c.crc, s.host, id, env).0.rules
  {
    var vm := s.live[victim];
    var r := Masquerade(vm.idx, vm.iface);
    assert RuleOf(c, victim, vm, r) && Names(r, vm.idx, c.crc(id));
    assert s.host.rules[r] == 1;
    RemovedMember(vm.idx, vm.iface, c.crc(id), r);
    CreateInParts(c, s, id, env);
    if Allocated(c.crc, Cleared(c, s, id, env).host, id, env.unread) != Some(vm.idx) {
      NeverAdded(c, Cleared(c, s, id, env), id, env, r);
    }
  }

  /** The rules after a clearing that names `vm`, a setup that adds `k` rules of its block,
      and a rollback that names `vm2`. */
  function Thrice(rules: multiset<Rule>, vm: Vm, iface: string, vm2: Vm, tap: nat, k: nat): multiset<Rule>
    requires k <= 3
  {
    rules - Removed(vm.idx, vm.iface, tap) + Added(vm.idx, iface, tap, k) - Removed(vm2.idx, vm2.iface, tap)
  }

  /** They are the rules there were, of which the clearing took the NAT rule, exactly when
      the setup adds that rule again, and the rollback leaves it and removes what else was
      added and no more. */
  lemma MadeUpExact(rules: multiset<Rule>, vm: Vm, iface: string, vm2: Vm, tap: nat, k: nat)
    requires k <= 3 && vm.iface != "" && rules[Masquerade(vm.idx, vm.iface)] == 1
    requires forall f: string :: rules[Outbound(tap, f)] == 0 && rules[Inbound(f, tap)] == 0
    ensures Thrice(rules, vm, iface, vm2, tap, k) == rules <==> ReAdds(rules, vm, iface, vm2, k)
  {
    if ReAdds(rules, vm, iface, vm2, k) {
      forall r: Rule ensures Thrice(rules, vm, iface, vm2, tap, k)[r] == rules[r] {
        ThriceCounts(rules, vm, iface, vm2, tap, k, r);
        ReAddsCounts(rules, vm, iface, vm2, tap, k, r);
      }
    } else {
      var r := Witness(vm, iface, vm2, tap, k);
      ThriceCounts(rules, vm, iface, vm2, tap, k, r);
      WitnessCounts(rules, vm, iface, vm2, tap, k);
      assert Thrice(rules, vm, iface, vm2, tap, k)[r] != rules[r];
    }
  }

  predicate Among(r: Rule, vm: Vm, tap: nat, k: nat) {
    || (k > 0 && r == Masquerade(vm.idx, vm.iface))
    || (k > 1 && r == Outbound(tap, vm.iface))
    || (k > 2 && r == Inbound(vm.iface, tap))
  }

  /** How often a rule occurs after being taken, added and taken once more. */
  function Count(n: nat, taken: bool, added: bool, takenAgain: bool): nat {
    var x := if taken then OneLess(n) else n;
    var y := if added then x + 1 else x;
    if takenAgain then OneLess(y) else y
  }

  function ThriceCount(n: nat, vm: Vm, iface: string, vm2: Vm, tap: nat, k: nat, r: Rule): nat {
    Count(n, Among(r, vm, tap, 3), Among(r, Vm(vm.idx, iface), tap, k), vm2.iface != "" && Among(r, vm2, tap, 3))
  }

  lemma MinusCounts(m: multiset<Rule>, vm: Vm, tap: nat, r: Rule)
    ensures (m - Removed(vm.idx, vm.iface, tap))[r] ==
            if vm.iface != "" && Among(r, vm, tap, 3) then OneLess(m[r]) else m[r]
  {
    RemovedCounts(vm.idx, vm.iface, tap, r);
  }

  lemma PlusCounts(m: multiset<Rule>, vm: Vm, tap: nat, k: nat, r: Rule)
    requires k <= 3
    ensures (m + Added(vm.idx, vm.iface, tap, k))[r] == if Among(r, vm, tap, k) then m[r] + 1 else m[r]
  {
    PrefixCounts(vm.idx, vm.iface, tap, k, r);
  }

  lemma ThriceCounts(rules: multiset<Rule>, vm: Vm, iface: string, vm2: Vm, tap: nat, k: nat, r: Rule)
    requires k <= 3 && vm.iface != ""
    ensures Thrice(rules, vm, iface, vm2, tap, k)[r] == ThriceCount(rules[r], vm, iface, vm2, tap, k, r)
  {
    var cleared := rules - Removed(vm.idx, vm.iface, tap);
    MinusCounts(rules, vm, tap, r);
    PlusCounts(cleared, Vm(vm.idx, iface), tap, k, r);
    MinusCounts(cleared + Added(vm.idx, iface, tap, k), vm2, tap, r);
  }

  lemma ReAddsCounts(rules: multiset<Rule>, vm: Vm, iface: string, vm2: Vm, tap: nat, k: nat, r: Rule)
    requires k <= 3 && vm.iface != "" && rules[Masquerade(vm.idx, vm.iface)] == 1 && ReAdds(rules, vm, iface, vm2, k)
    requires forall f: string :: rules[Outbound(tap, f)] == 0 && rules[Inbound(f, tap)] == 0
    ensures ThriceCount(rules[r], vm, iface, vm2, tap, k, r) == rules[r]
  {
    match r
    case Masquerade(b, f) =>
    case Outbound(t, f) =>
    case Inbound(f, t) =>
  }

  /** A rule whose count is off when the clearing is not made up for. */
  function Witness(vm: Vm, iface: string, vm2: Vm, tap: nat, k: nat): Rule {
    if k == 0 || iface != vm.iface || vm2 == vm then Masquerade(vm.idx, vm.iface)
    else if k >= 2 && vm2.iface != iface then Outbound(tap, iface)
    else Masquerade(vm2.idx, vm2.iface)
  }

  lemma WitnessCounts(rules: multiset<Rule>, vm: Vm, iface: string, vm2: Vm, tap: nat, k: nat)
    requires k <= 3 && vm.iface != "" && rules[Masquerade(vm.idx, vm.iface)] == 1 && !ReAdds(rules, vm, iface, vm2, k)
    requires forall f: string :: rules[Outbound(tap, f)] == 0 && rules[Inbound(f, tap)] == 0
    ensures var r := Witness(vm, iface, vm2, tap, k);
            ThriceCount(rules[r], vm, iface, vm2, tap, k, r) != rules[r]
  {
  }

  predicate ReAdds(rules: multiset<Rule>, vm: Vm, iface: string, vm2: Vm, k: nat) {
    && k >= 1 && iface == vm.iface && vm2 != vm && (k >= 2 ==> vm2.iface == iface)
    && (vm2.iface != "" ==> Masquerade(vm2.idx, vm2.iface) !in rules)
  }

  /** What the rollback of a creation names, once the subnet file is written. */
  function RollbackNames(c: Context, s: Sys, id: string, idx: nat, env: CreateEnv): Vm {
    var h := Recording(s, id, idx).host;
    Vm(NamedBlock(c.crc, h.dirs, id, env.after),
       NamedIface(SetUp(h, id, c.crc(id), idx, env.setup).dirs, id, env.after))
  }

  /** The odd case in which a creation makes up for a harmful clearing: it takes the block
      whose rule it deleted, adds the rule again, fails, and its rollback leaves it. */
  ghost predicate MakesUp(c: Context, s: Sys, id: string, env: CreateEnv) {
    var vm := Named(c, s, id, env.before);
    var s1 := Cleared(c, s, id, env);
    && Allocated(c.crc, s1.host, id, env.unread) == Some(vm.idx) && env.leftover.None? && env.prepareOk
    && !(NetworkUp(s1.host.taps, c.crc(id), env.setup) && env.launchOk)
    && ReAdds(s.host.rules, vm, env.setup.iface, RollbackNames(c, s1, id, vm.idx, env),
              RulesAdded(s1.host.taps, c.crc(id), env.setup))
  }

  lemma NoForwarding(c: Context, s: Sys, id: string, f: string)
    requires Separate(c) && Inv(c, s) && id in c.ids && id !in s.live
    ensures s.host.rules[Outbound(c.crc(id), f)] == 0 && s.host.rules[Inbound(f, c.crc(id))] == 0
  {
    var a, b := Outbound(c.crc(id), f), Inbound(f, c.crc(id));
    assert Names(a, 0, c.crc(id)) && Names(b, 0, c.crc(id));
    assert !Needed(c, s.live, a) && !Needed(c, s.live, b);
  }

  lemma MakesUpExact(c: Context, s: Sys, id: string, env: CreateEnv)
    requires Separate(c) && Inv(c, s) && id in c.ids && id !in s.live && env.checkOk && !Harmless(c, s, id, env.before)
    requires Allocated(c.crc, Cleared(c, s, id, env).host, id, env.unread) == Some(Named(c, s, id, env.before).idx)
    ensures Inv(c, Next(c, s, Create(id, env))) <==> MakesUp(c, s, id, env)
  {
    var vm := Named(c, s, id, env.before);
    var x :| x in s.live && s.live[x] == vm;
    var s1 := Cleared(c, s, id, env);
    var s2 := Recording(s1, id, vm.idx);
    assert s.live - {id} == s.live;
    CreateInParts(c, s, id, env);
    VictimsRule(c, s, id, x);
    if env.leftover.Some? || !env.prepareOk {
      MissingRule(c, Next(c, s, Create(id, env)), x, vm);
    } else if NetworkUp(s2.host.taps, c.crc(id), env.setup) && env.launchOk {
      DistinctExactly(s.live, id, Vm(vm.idx, env.setup.iface));
      assert !Unshared(s.live, id, vm.idx);
    } else {
      NotLiveNoTap(c, s, id);
      forall f: string
        ensures s.host.rules[Outbound(c.crc(id), f)] == 0 && s.host.rules[Inbound(f, c.crc(id))] == 0
      {
        NoForwarding(c, s, id, f);
      }
      RolledBackRules(c, s, id, env, vm);
      var named := RollbackNames(c, s1, id, vm.idx, env);
      var k := RulesAdded(s1.host.taps, c.crc(id), env.setup);
      MadeUpExact(s.host.rules, vm, env.setup.iface, named, c.crc(id), k);
      RulesDetermined(c, Next(c, s, Create(id, env)).host.rules, s.host.rules, s.live);
    }
  }

  lemma VictimsRule(c: Context, s: Sys, id: string, x: string)
    requires Separate(c) && Inv(c, s) && id in c.ids && x in s.live
    ensures var r := Masquerade(s.live[x].idx, s.live[x].iface);
            s.host.rules[r] == 1 && r !in s.host.rules - Removed(s.live[x].idx, s.live[x].iface, c.crc(id))
  {
    var vm := s.live[x];
    var r := Masquerade(vm.idx, vm.iface);
    assert RuleOf(c, x, vm, r) && Names(r, vm.idx, c.crc(id));
    RemovedMember(vm.idx, vm.iface, c.crc(id), r);
  }

  /** Clearing, setup and rollback, as changes of the rules and the taps. */
  lemma RolledBackRules(c: Context, s: Sys, id: string, env: CreateEnv, vm: Vm)
    requires vm == Named(c, s, id, env.before) && c.crc(id) !in s.host.taps
    ensures var s1 := Cleared(c, s, id, env);
            var h := Recording(s1, id, vm.idx).host;
            var h' := TornDown(c.crc, SetUp(h, id, c.crc(id), vm.idx, env.setup), id, env.after);
            var k := RulesAdded(s1.host.taps, c.crc(id), env.setup);
            && h'.taps == s.host.taps
            && h'.rules ==
               Thrice(s.host.rules, vm, env.setup.iface, RollbackNames(c, s1, id, vm.idx, env), c.crc(id), k)
  {
    var h := Recording(Cleared(c, s, id, env), id, vm.idx).host;
    ClearedHost(c, s, id, env, vm);
    SetupThenTeardown(c.crc, h, id, vm.idx, env.setup, env.after);
    RollbackTaps(c.crc, h, id, vm.idx, env.setup, env.after);
  }

  lemma ClearedHost(c: Context, s: Sys, id: string, env: CreateEnv, vm: Vm)
    requires vm == Named(c, s, id, env.before) && c.crc(id) !in s.host.taps
    ensures var h := Recording(Cleared(c, s, id, env), id, vm.idx).host;
            id in h.dirs && h.taps == s.host.taps && h.rules == s.host.rules - Removed(vm.idx, vm.iface, c.crc(id))
  {
    assert s.host.taps - {c.crc(id)} == s.host.taps;
  }

  lemma RollbackTaps(crc: Crc, h: Host, id: string, idx: nat, e: Setup, after: View)
    requires crc(id) !in h.taps
    ensures TornDown(crc, SetUp(h, id, crc(id), idx, e), id, after).taps == h.taps
  {
  }

  /** A creation of a run that is not live keeps the invariant if and only if its clearing
      teardown is harmless and it completes well, or it makes up for its clearing. */
  lemma CreateExact(c: Context, s: Sys, id: string, env: CreateEnv)
    requires Separate(c) && Inv(c, s) && id in c.ids && id !in s.live
    ensures Inv(c, Next(c, s, Create(id, env))) <==>
            Allowed(c, s, Create(id, env)) || (!Harmless(c, s, id, env.before) && MakesUp(c, s, id, env))
  {
    if env.checkOk {
      if Harmless(c, s, id, env.before) {
        HarmlessCreateExact(c, s, id, env);
      } else {
        HarmfulCreateExact(c, s, id, env);
      }
    }
  }

  lemma HarmlessCreateExact(c: Context, s: Sys, id: string, env: CreateEnv)
    requires Separate(c) && Inv(c, s) && id in c.ids && id !in s.live && env.checkOk && Harmless(c, s, id, env.before)
    ensures Inv(c, Next(c, s, Create(id, env))) <==> CompletesWell(c, Cleared(c, s, id, env), id, env)
  {
    CreateInParts(c, s, id, env);
    TeardownKeeps(c, s, id, env.before);
    FreshExact(c, Cleared(c, s, id, env), id, env);
  }

  lemma HarmfulCreateExact(c: Context, s: Sys, id: string, env: CreateEnv)
    requires Separate(c) && Inv(c, s) && id in c.ids && id !in s.live && env.checkOk && !Harmless(c, s, id, env.before)
    ensures Inv(c, Next(c, s, Create(id, env))) <==> MakesUp(c, s, id, env)
  {
    if Allocated(c.crc, Cleared(c, s, id, env).host, id, env.unread) == Some(Named(c, s, id, env.before).idx) {
      MakesUpExact(c, s, id, env);
    } else {
      var x :| x in s.live && s.live[x] == Named(c, s, id, env.before);
      CollidingCreateCutsNat(c, s, id, env, x);
      MissingRule(c, Next(c, s, Create(id, env)), x, s.live[x]);
    }
  }

  lemma MissingRule(c: Context, s: Sys, x: string, vm: Vm)
    requires x in s.live && s.live[x] == vm && Masquerade(vm.idx, vm.iface) !in s.host.rules
    ensures !RulesOk(c, s.host.rules, s.live)
  {
    assert RuleOf(c, x, vm, Masquerade(vm.idx, vm.iface));
  }

  // ---------------------------------------------------------------- runs

  lemma {:induction false} InvHolds(c: Context, s: Sys, steps: seq<Step>)
    requires Separate(c) && Inv(c, s) && AllAllowed(c, s, steps)
    ensures Inv(c, Exec(c, s, steps))
    decreases |steps|
  {
    if steps != [] {
      StepKeeps(c, s, steps[0]);
      InvHolds(c, Next(c, s, steps[0]), steps[1..]);
    }
  }

  /** Over every allowed run from a host without microVMs, each live VM has its three rules
      once and its tap, and the host has nothing else that it did not have; once all are
      torn down the host is as it was. */
  lemma RunsKeepHost(c: Context, steps: seq<Step>)
    requires Separate(c) && AllAllowed(c, Start(c), steps)
    ensures var s := Exec(c, Start(c), steps);
            && RulesOk(c, s.host.rules, s.live) && TapsOk(c, s.host.taps, s.live)
            && (s.live == map[] ==> s.host.rules == c.rules && s.host.taps == c.taps)
  {
    assert Inv(c, Start(c));
    InvHolds(c, Start(c), steps);
  }

  // ---------------------------------------------------------------- careful runs

  /** The directory of each live VM records its block and its interface. */
  ghost predicate OnRecord(s: Sys) {
    LiveApart(s) && IfacesRecorded(s)
  }

  predicate Reads(v: View) {
    v.subnetOk && v.ifaceOk
  }

  /** A step whose files are written and read: the teardowns read both files of their run,
      the scan reads the live VMs' directories and the iface file is written.  A run that is
      not live names no live VM's block and interface when it is cleared. */
  ghost predicate Careful(c: Context, s: Sys, step: Step) {
    && step.id in c.ids && ReadsLive(s, step)
    && (step.id !in s.live ==> forall x :: x in s.live ==> s.live[x] != Named(c, s, step.id, ClearingView(step)))
    && match step
       case Create(_, env) => Reads(env.before) && Reads(env.after) && env.setup.recordOk
       case Destroy(_, view) => Reads(view)
  }

  function ClearingView(step: Step): View {
    match step
    case Create(_, env) => env.before
    case Destroy(_, view) => view
  }

  ghost predicate AllCareful(c: Context, s: Sys, steps: seq<Step>)
    decreases |steps|
  {
    steps == [] || (Careful(c, s, steps[0]) && AllCareful(c, Next(c, s, steps[0]), steps[1..]))
  }

  lemma CarefulIsHarmless(c: Context, s: Sys, step: Step)
    requires Inv(c, s) && OnRecord(s) && Careful(c, s, step)
    ensures Harmless(c, s, step.id, ClearingView(step))
  {
    if step.id in s.live {
      ReadableBlock(c.crc, s.host.dirs, step.id, ClearingView(step));
    }
  }

  lemma CarefulCompletesWell(c: Context, s: Sys, id: string, env: CreateEnv)
    requires Separate(c) && Inv(c, s) && OnRecord(s) && env.checkOk && Careful(c, s, Create(id, env))
    ensures CompletesWell(c, Cleared(c, s, id, env), id, env)
  {
    var s1 := Cleared(c, s, id, env);
    var found := Allocated(c.crc, s1.host, id, env.unread);
    if found.Some? {
      forall x | x in s.live && x != id ensures s.live[x].idx != found.value {
        ProbingAvoidsRead(c, s, id, env, x);
      }
      CarefulIsHarmless(c, s, Create(id, env));
      TeardownKeeps(c, s, id, env.before);
      CarefulUndoes(c, s1, id, found.value, env);
    }
  }

  lemma CarefulUndoes(c: Context, s: Sys, id: string, idx: nat, env: CreateEnv)
    requires Separate(c) && Inv(c, s) && id in c.ids && id !in s.live && idx < SUBNETS && Unshared(s.live, id, idx)
    requires Reads(env.after) && env.setup.recordOk
    ensures Undoes(c.crc, Recording(s, id, idx).host, id, idx, env.setup, env.after)
  {
    var h := Recording(s, id, idx).host;
    Unnamed(c, s, id, idx);
    RecordedReadsBack(idx, "");
    RecordedTeardownRestores(c.crc, h, id, idx, env.setup, env.after);
    TeardownExact(c.crc, h, id, idx, env.setup, env.after);
  }

  lemma CarefulIsAllowed(c: Context, s: Sys, step: Step)
    requires Separate(c) && Inv(c, s) && OnRecord(s) && Careful(c, s, step)
    ensures Allowed(c, s, step)
  {
    CarefulIsHarmless(c, s, step);
    if step.Create? && step.env.checkOk {
      CarefulCompletesWell(c, s, step.id, step.env);
    }
  }

  lemma CarefulStaysOnRecord(c: Context, s: Sys, step: Step)
    requires OnRecord(s) && Careful(c, s, step)
    ensures OnRecord(Next(c, s, step))
  {
    StepApartExact(c, s, step);
    match step
    case Create(id, env) => CreateKeepsIfaces(c, s, id, env);
    case Destroy(_, _) =>
  }

  ghost predicate IfacesRecorded(s: Sys) {
    forall x :: x in s.live && x in s.host.dirs ==> s.host.dirs[x].iface == s.live[x].iface
  }

  lemma CreateKeepsIfaces(c: Context, s: Sys, id: string, env: CreateEnv)
    requires IfacesRecorded(s) && env.setup.recordOk
    ensures IfacesRecorded(Next(c, s, Create(id, env)))
  {
    if env.checkOk {
      CreateInParts(c, s, id, env);
      FreshKeepsIfaces(c, Cleared(c, s, id, env), id, env);
    }
  }

  lemma FreshKeepsIfaces(c: Context, s: Sys, id: string, env: CreateEnv)
    requires IfacesRecorded(s) && id !in s.live && env.setup.recordOk
    ensures IfacesRecorded(FromFresh(c, s, id, env))
  {
    var found := Allocated(c.crc, s.host, id, env.unread);
    if found.Some? && env.leftover.None? {
      AllocatedKeepsIfaces(c, Recording(s, id, found.value), id, found.value, env);
    }
  }

  lemma AllocatedKeepsIfaces(c: Context, s: Sys, id: string, idx: nat, env: CreateEnv)
    requires IfacesRecorded(s) && id !in s.live && env.setup.recordOk
    ensures IfacesRecorded(FromAllocated(c, s, id, idx, env))
  {
  }

  /** The host over every careful run: what RunsKeepHost promises, from what a caller can see. */
  lemma CarefulRunsKeepHost(c: Context, steps: seq<Step>)
    requires Separate(c) && AllCareful(c, Start(c), steps)
    ensures AllAllowed(c, Start(c), steps)
    ensures var s := Exec(c, Start(c), steps);
            && RulesOk(c, s.host.rules, s.live) && TapsOk(c, s.host.taps, s.live)
            && (s.live == map[] ==> s.host.rules == c.rules && s.host.taps == c.taps)
  {
    assert Inv(c, Start(c));
    CarefulAllowed(c, Start(c), steps);
    RunsKeepHost(c, steps);
  }

  lemma {:induction false} CarefulAllowed(c: Context, s: Sys, steps: seq<Step>)
    requires Separate(c) && Inv(c, s) && OnRecord(s) && AllCareful(c, s, steps)
    ensures AllAllowed(c, s, steps)
    decreases |steps|
  {
    if steps != [] {
      CarefulIsAllowed(c, s, steps[0]);
      CarefulStaysOnRecord(c, s, steps[0]);
      StepKeeps(c, s, steps[0]);
      CarefulAllowed(c, Next(c, s, steps[0]), steps[1..]);
    }
  }

  lemma StepKeeps(c: Context, s: Sys, step: Step)
    requires Separate(c) && Inv(c, s) && Allowed(c, s, step)
    ensures Inv(c, Next(c, s, step))
  {
    match step
    case Create(id, env) => CreateKeeps(c, s, id, env);
    case Destroy(id, view) => TeardownKeeps(c, s, id, view);
  }

  // ---------------------------------------------------------------- shared taps

  /** A creation that fails leaves the host without a live VM's tap if and only if the two
      run ids share their crc32.  One that succeeds leaves that tap there, but then it is
      the new VM's: the clearing had deleted it. */
  lemma TapTakenExactly(c: Context, s: Sys, id: string, env: CreateEnv, victim: string)
    requires victim in s.live && c.crc(victim) in s.host.taps && env.checkOk
    ensures var (host, r) := Created(c.crc, s.host, id, env);
            && (r.None? ==> (c.crc(victim) !in host.taps <==> c.crc(victim) == c.crc(id)))
            && (r.Some? ==> host.taps == Cleared(c, s, id, env).host.taps + {c.crc(id)} && c.crc(victim) in host.taps)
            && c.crc(id) !in Cleared(c, s, id, env).host.taps
  {
    CreateInParts(c, s, id, env);
    var s1 := Cleared(c, s, id, env);
    assert c.crc(id) !in s1.host.taps;
  }

  function OneLess(n: nat): nat {
    if n > 0 then n - 1 else 0
  }

  /** With the same crc32 the clearing also takes the live twin's forwarding rules on the
      interface it names. */
  lemma TwinLosesForwarding(c: Context, s: Sys, id: string, env: CreateEnv, victim: string)
    requires victim in s.live && victim != id && c.crc(victim) == c.crc(id)
    requires Named(c, s, id, env.before).iface == s.live[victim].iface != ""
    ensures var before, after := s.host.rules, Cleared(c, s, id, env).host.rules;
            var tap, iface := c.crc(victim), s.live[victim].iface;
            && after[Outbound(tap, iface)] == OneLess(before[Outbound(tap, iface)])
            && after[Inbound(iface, tap)] == OneLess(before[Inbound(iface, tap)])
  {
    var named := Named(c, s, id, env.before);
    RemovedCounts(named.idx, named.iface, c.crc(id), Outbound(c.crc(id), named.iface));
    RemovedCounts(named.idx, named.iface, c.crc(id), Inbound(named.iface, c.crc(id)));
  }
}
