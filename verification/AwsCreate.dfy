/** Creating an EC2 instance: the idempotency token, the retried launch against a cloud
    that may create and then report failure, and the rollback of the security group. */
module AwsCreate {
  import opened Common
  import opened Retry
  import Decimal

  // ---------------------------------------------------------------- the cloud

  /** How one request fares: it takes effect and is answered, it fails without effect, or
      it takes effect and the answer is an error. */
  datatype Fault = Fine | FailBefore(transient: bool) | FailAfter(transient: bool)

  datatype Instance = Instance(region: string, token: string, group: nat)

  /** `instances` is every instance ever launched, in order; an index names an instance.
      `deletes` logs the delete-security-group requests. */
  datatype Cloud = Cloud(
    instances: seq<Instance>,
    terminated: set<nat>,
    groups: map<(string, string), nat>,
    nextGroup: nat,
    deletes: seq<(string, nat)>)

  function Find(instances: seq<Instance>, region: string, token: string): (r: Option<nat>)
    ensures r.Some? ==>
              r.value < |instances| && instances[r.value].token == token && instances[r.value].region == region
    ensures r.None? ==>
              forall i :: 0 <= i < |instances| ==> !(instances[i].token == token && instances[i].region == region)
  {
    if instances == [] then None
    else
      var last := |instances| - 1;
      if instances[last].token == token && instances[last].region == region then Some(last)
      else Find(instances[..last], region, token)
  }

  predicate Used(instances: seq<Instance>, region: string, token: string) {
    token != "" && Find(instances, region, token).Some?
  }

  /** run-instances: a client token that was already used launches nothing. */
  function RunInstances(s: seq<Instance>, inst: Instance, f: Fault): seq<Instance> {
    if f.FailBefore? || Used(s, inst.region, inst.token) then s else s + [inst]
  }

  /** The instance an answered run-instances names. */
  function Named(s: seq<Instance>, inst: Instance): Option<nat> {
    if inst.token != "" then Find(s, inst.region, inst.token)
    else if |s| > 0 then Some(|s| - 1)
    else None
  }

  /** The instances after `n` run-instances calls. */
  function AfterCalls(s: seq<Instance>, inst: Instance, faults: nat -> Fault, n: nat): seq<Instance> {
    if n == 0 then s else RunInstances(AfterCalls(s, inst, faults, n - 1), inst, faults(n - 1))
  }

  function Reply(f: Fault): OpResult {
    match f
    case Fine => Success
    case FailBefore(t) => Failure(t)
    case FailAfter(t) => Failure(t)
  }

  function Replies(faults: nat -> Fault): nat -> OpResult {
    (k: nat) => Reply(faults(k))
  }

  ghost predicate Effective(faults: nat -> Fault, n: nat) {
    exists k: nat :: k < n && !faults(k).FailBefore?
  }

  // ---------------------------------------------------------------- the retried launch

  /** With a token, any number of calls launches one instance exactly when some call took
      effect and the token was not used before. */
  lemma {:induction false} LaunchesOnce(s: seq<Instance>, inst: Instance, faults: nat -> Fault, n: nat)
    requires inst.token != ""
    ensures AfterCalls(s, inst, faults, n) ==
            if !Used(s, inst.region, inst.token) && Effective(faults, n) then s + [inst] else s
  {
    if n > 0 {
      LaunchesOnce(s, inst, faults, n - 1);
      assert Effective(faults, n) <==> Effective(faults, n - 1) || !faults(n - 1).FailBefore?;
      assert Used(s + [inst], inst.region, inst.token) by {
        assert (s + [inst])[|s|] == inst;
      }
    }
  }

  lemma {:induction false} LaunchesWithoutToken(s: seq<Instance>, inst: Instance, faults: nat -> Fault, n: nat)
    requires inst.token == ""
    ensures s <= AfterCalls(s, inst, faults, n)
    ensures |AfterCalls(s, inst, faults, n)| <= |s| + n
    ensures forall i :: |s| <= i < |AfterCalls(s, inst, faults, n)| ==> AfterCalls(s, inst, faults, n)[i] == inst
    ensures n > 0 && !faults(n - 1).FailBefore? ==> |AfterCalls(s, inst, faults, n)| > |s|
  {
    if n > 0 {
      LaunchesWithoutToken(s, inst, faults, n - 1);
    }
  }

  function LoopCalls(p: Policy, faults: nat -> Fault, cancelled: nat -> bool): nat {
    Loop(p, Replies(faults), cancelled, 0).1
  }

  /** The retried launch creates at most one instance whatever the cloud does, exactly
      when it carries a token or is never repeated. */
  lemma AtMostOneExactly(p: Policy, s: seq<Instance>, inst: Instance)
    ensures (forall faults: nat -> Fault, cancelled: nat -> bool ::
               |AfterCalls(s, inst, faults, LoopCalls(p, faults, cancelled))| <= |s| + 1)
            <==> (inst.token != "" || Attempts(p) == 1)
  {
    if inst.token != "" {
      forall faults: nat -> Fault, cancelled: nat -> bool
        ensures |AfterCalls(s, inst, faults, LoopCalls(p, faults, cancelled))| <= |s| + 1
      {
        LaunchesOnce(s, inst, faults, LoopCalls(p, faults, cancelled));
      }
    } else if Attempts(p) == 1 {
      forall faults: nat -> Fault, cancelled: nat -> bool
        ensures |AfterCalls(s, inst, faults, LoopCalls(p, faults, cancelled))| <= |s| + 1
      {
        LaunchesWithoutToken(s, inst, faults, LoopCalls(p, faults, cancelled));
      }
    } else {
      var faults, cancelled := TwiceWithoutToken(p, s, inst);
    }
  }

  /** Without a token, one created-then-failed answer makes the retry launch again. */
  lemma TwiceWithoutToken(p: Policy, s: seq<Instance>, inst: Instance)
    returns (faults: nat -> Fault, cancelled: nat -> bool)
    requires inst.token == "" && Attempts(p) > 1
    ensures |AfterCalls(s, inst, faults, LoopCalls(p, faults, cancelled))| > |s| + 1
  {
    faults := (k: nat) => if k == 0 then FailAfter(true) else Fine;
    cancelled := (k: nat) => false;
    assert faults(0) == FailAfter(true) && faults(1) == Fine;
    TwiceWith(p, s, inst, faults, cancelled);
  }

  lemma TwiceWith(p: Policy, s: seq<Instance>, inst: Instance, faults: nat -> Fault, cancelled: nat -> bool)
    requires inst.token == "" && Attempts(p) > 1
    requires faults(0) == FailAfter(true) && faults(1) == Fine && !cancelled(0)
    ensures |AfterCalls(s, inst, faults, LoopCalls(p, faults, cancelled))| > |s| + 1
  {
    FailedAnswerRepeats(p, faults, cancelled);
    LaunchesTwice(s, inst, faults);
  }

  lemma FailedAnswerRepeats(p: Policy, faults: nat -> Fault, cancelled: nat -> bool)
    requires faults(0) == FailAfter(true) && faults(1) == Fine && !cancelled(0) && Attempts(p) > 1
    ensures LoopCalls(p, faults, cancelled) == 2
  {
    var op := Replies(faults);
    assert op(0) == Failure(true) && op(1) == Success;
    assert Loop(p, op, cancelled, 1) == (Nil, 2);
  }

  lemma LaunchesTwice(s: seq<Instance>, inst: Instance, faults: nat -> Fault)
    requires faults(0) == FailAfter(true) && faults(1) == Fine && inst.token == ""
    ensures |AfterCalls(s, inst, faults, 2)| == |s| + 2
  {
    assert AfterCalls(s, inst, faults, 0) == s;
    assert AfterCalls(s, inst, faults, 1) == s + [inst];
  }

  // ---------------------------------------------------------------- the token

  /** The base is the run id, else the VM name; without either there is no token. */
  function ClientToken(base: string, attempt: nat): string {
    if base == "" then "" else base + "-" + Decimal.Itoa(attempt)
  }

  lemma TokensDistinct(b1: string, n1: nat, b2: string, n2: nat)
    requires b1 != "" && b2 != "" && ClientToken(b1, n1) == ClientToken(b2, n2)
    ensures b1 == b2 && n1 == n2
  {
    Decimal.DashNumberInjective(b1, n1, b2, n2);
  }

  // ---------------------------------------------------------------- the security group

  datatype Auth = Authorized | AlreadyAuthorized | Refused

  /** What the environment answers at each step of one CreateVM call. */
  datatype Env = Env(
    inputsOk: bool,          // tags, confidential type, image lookup and argument checks
    vpcOk: bool,
    createGroup: Fault,
    findOk: bool,
    authorize: Auth,
    deleteOk: bool,
    bootFilesOk: bool,       // reading the public key and writing the user data
    faults: nat -> Fault,    // run-instances
    cancelled: nat -> bool,
    parseOk: bool,
    addressOk: bool,         // waitForIP
    terminateOk: bool,
    groupListed: bool,       // DestroyVM finds the group of the instance
    released: nat -> bool,   // its k-th attempt to delete that group is not refused
    gaveUp: nat -> bool)     // the context ends after it

  predicate InUse(c: Cloud, group: nat) {
    exists i :: 0 <= i < |c.instances| && c.instances[i].group == group && i !in c.terminated
  }

  /** delete-security-group: refused while a live instance uses the group. */
  function DeleteGroup(c: Cloud, region: string, group: nat, ok: bool): Cloud {
    var c1 := c.(deletes := c.deletes + [(region, group)]);
    if ok && !InUse(c, group) then c1.(groups := map k | k in c.groups && c.groups[k] != group :: c.groups[k])
    else c1
  }

  predicate Gone(c: Cloud, group: nat) {
    forall k :: k in c.groups ==> c.groups[k] != group
  }

  /** The id that the run's group has or gets. */
  function GroupId(c: Cloud, key: (string, string)): nat {
    if key in c.groups then c.groups[key] else c.nextGroup
  }

  /** deleteSGWhenReleased: up to 42 requests, until one succeeds or the context ends. */
  method DeleteWhenReleased(c0: Cloud, region: string, group: nat, env: Env) returns (c: Cloud)
    ensures c.instances == c0.instances && c.terminated == c0.terminated
    ensures c0.deletes <= c.deletes && 1 <= |c.deletes| - |c0.deletes| <= 42
    ensures forall i :: |c0.deletes| <= i < |c.deletes| ==> c.deletes[i] == (region, group)
    ensures c.groups == c0.groups || Gone(c, group)
  {
    c := c0;
    for i := 0 to 42
      invariant c.instances == c0.instances && c.terminated == c0.terminated && c.groups == c0.groups
      invariant c0.deletes <= c.deletes && |c.deletes| == |c0.deletes| + i
      invariant forall i :: |c0.deletes| <= i < |c.deletes| ==> c.deletes[i] == (region, group)
    {
      var deleted := env.released(i) && !InUse(c, group);
      c := DeleteGroup(c, region, group, env.released(i));
      if deleted || env.gaveUp(i) {
        return;
      }
    }
  }

  /** The group is known to the call: created, or found under its name and authorized. */
  predicate OwnsGroup(c: Cloud, key: (string, string), env: Env) {
    env.vpcOk && env.createGroup.Fine? && (key in c.groups ==> env.findOk && !env.authorize.Refused?)
  }

  method CreateGroup(c0: Cloud, region: string, name: string, env: Env) returns (r: Option<nat>, c: Cloud)
    ensures c.instances == c0.instances && c.terminated == c0.terminated
    ensures r.Some? <==>
            && env.vpcOk && env.createGroup.Fine?
            && ((region, name) in c0.groups ==> env.findOk) && !env.authorize.Refused?
    ensures r.Some? ==> c.deletes == c0.deletes && (region, name) in c.groups && c.groups[(region, name)] == r.value
    ensures r.Some? ==> r.value == GroupId(c0, (region, name)) && ((region, name) in c0.groups ==> c == c0)
    ensures r.None? && OwnsGroup(c0, (region, name), env) ==> c.deletes == c0.deletes + [(region, c0.nextGroup)]
    ensures r.None? && OwnsGroup(c0, (region, name), env) && env.deleteOk && !InUse(c, c0.nextGroup) ==>
            Gone(c, c0.nextGroup)
    ensures r.None? && !OwnsGroup(c0, (region, name), env) ==> c.deletes == c0.deletes
  {
    c := c0;
    if !env.vpcOk {
      return None, c;
    }
    var adopted := false;
    var group;
    if env.createGroup.FailBefore? {
      return None, c;
    } else if (region, name) in c.groups {
      if env.createGroup.FailAfter? || !env.findOk {
        return None, c;
      }
      group, adopted := c.groups[(region, name)], true;
    } else {
      group := c.nextGroup;
      c := c.(groups := c.groups[(region, name) := group], nextGroup := group + 1);
      if env.createGroup.FailAfter? {
        return None, c;
      }
    }
    if env.authorize.Refused? {
      if !adopted {
        c := DeleteGroup(c, region, group, env.deleteOk);
      }
      return None, c;
    }
    return Some(group), c;
  }

  // ---------------------------------------------------------------- CreateVM

  const DEFAULT_RETRY := Policy(4, 500 * MILLISECOND, 8_000 * MILLISECOND)

  /** What one call may do to the instances: everything launched is kept, every new
      instance carries the call's token, a token launches at most once, and a returned
      instance carries the token and is new unless the token was used before. */
  ghost predicate Launches(s: seq<Instance>, region: string, token: string, r: Option<nat>, s': seq<Instance>) {
    && s <= s'
    && (forall i :: |s| <= i < |s'| ==> s'[i].token == token && s'[i].region == region)
    && (token != "" ==> |s'| <= |s| + 1)
    && (Used(s, region, token) ==> s' == s)
    && (r.Some? ==> r.value < |s'| && s'[r.value].token == token && s'[r.value].region == region)
    && (r.Some? && !Used(s, region, token) ==> |s| <= r.value)
  }

  datatype Options = Options(runId: string, name: string, region: string, groupName: string)

  class AwsProvider {
    var createSeq: nat
    const defaultRegion: string

    constructor (region: string)
      ensures createSeq == 0 && defaultRegion == region
    {
      createSeq, defaultRegion := 0, region;
    }

    function Region(opts: Options): string {
      if opts.region == "" then defaultRegion else opts.region
    }

    /** What tokens start with: the run id, else the VM name. */
    function Base(opts: Options): string {
      if opts.runId == "" then opts.name else opts.runId
    }

    /** The launch proper, from the boot files to the address. */
    method Launch(c0: Cloud, region: string, token: string, group: nat, env: Env) returns (r: Option<nat>, c: Cloud)
      ensures Launches(c0.instances, region, token, r, c.instances)
      ensures r.Some? ==> c.groups == c0.groups && c.deletes == c0.deletes
      ensures c0.deletes <= c.deletes
      ensures forall i :: |c0.instances| <= i < |c.instances| ==> c.instances[i].group == group
      ensures r.Some? <==> env.bootFilesOk && Answered(env) && env.parseOk && env.addressOk
      ensures r.Some? ==> c.terminated == c0.terminated
      ensures c0.terminated <= c.terminated
      ensures r.None? && token != "" && !Used(c0.instances, region, token) && |c0.instances| !in c0.terminated ==>
                (|c.instances| > |c0.instances| <==>
                 env.bootFilesOk && Effective(env.faults, LoopCalls(DEFAULT_RETRY, env.faults, env.cancelled)))
                && (|c.instances| > |c0.instances| ==>
                      (|c0.instances| in c.terminated <==>
                       Answered(env) && env.parseOk && region == defaultRegion && env.terminateOk))
    {
      c := c0;
      if !env.bootFilesOk {
        return None, c;
      }
      var inst := Instance(region, token, group);
      var op := Replies(env.faults);
      var outcome, calls, sleeps := Retry.Retry(DEFAULT_RETRY, op, env.cancelled);
      c := c.(instances := AfterCalls(c.instances, inst, env.faults, calls));
      LaunchFacts(c0.instances, inst, env.faults, calls);
      if !outcome.Nil? || !env.parseOk {
        return None, c;
      }
      assert env.faults(calls - 1) == Fine;
      var named := Named(c.instances, inst);
      if !env.addressOk {
        // DestroyVM addresses the provider's default region.
        if env.terminateOk && region == defaultRegion && named.Some? {
          c := c.(terminated := c.terminated + {named.value});
          if env.groupListed {
            c := DeleteWhenReleased(c, region, c.instances[named.value].group, env);
          }
        }
        return None, c;
      }
      return named, c;
    }

    method CreateVM(c0: Cloud, opts: Options, env: Env) returns (r: Option<nat>, c: Cloud)
      modifies this`createSeq
      ensures createSeq == old(createSeq) + 1
      ensures Launches(c0.instances, Region(opts), ClientToken(Base(opts), createSeq), r, c.instances)
      // New instances are where they were asked for, and carry the run's token.
      ensures forall i :: |c0.instances| <= i < |c.instances| ==>
                && c.instances[i].region == (if opts.region == "" then defaultRegion else opts.region)
                && (opts.runId != "" ==> c.instances[i].token == opts.runId + "-" + Decimal.Itoa(createSeq))
                && (opts.runId == "" && opts.name != "" ==>
                      c.instances[i].token == opts.name + "-" + Decimal.Itoa(createSeq))
      // It succeeds exactly when every step does.
      ensures r.Some? <==>
                && env.inputsOk && env.vpcOk && env.createGroup.Fine?
                && ((Region(opts), opts.groupName) in c0.groups ==> env.findOk) && !env.authorize.Refused?
                && env.bootFilesOk && Answered(env) && env.parseOk && env.addressOk
      // On success the group is kept for the instance.
      ensures r.Some? ==> c.deletes == c0.deletes && (Region(opts), opts.groupName) in c.groups
      ensures r.Some? && |c0.instances| <= r.value ==>
              c.instances[r.value].group == c.groups[(Region(opts), opts.groupName)]
      // On error its deletion is requested exactly when the call knows the group.
      ensures r.None? ==>
                (c.deletes != c0.deletes <==>
                 && env.inputsOk && env.vpcOk && env.createGroup.Fine?
                 && ((Region(opts), opts.groupName) in c0.groups ==> env.findOk && !env.authorize.Refused?))
      ensures c0.deletes <= c.deletes
      ensures r.None? && c.deletes != c0.deletes ==>
                && c.deletes[|c.deletes| - 1] == (Region(opts), GroupId(c0, (Region(opts), opts.groupName)))
                && (env.deleteOk && !InUse(c, GroupId(c0, (Region(opts), opts.groupName))) ==>
                    Gone(c, GroupId(c0, (Region(opts), opts.groupName))))
    {
      createSeq := createSeq + 1;
      var attempt := createSeq;
      c := c0;
      var region := Region(opts);
      if !env.inputsOk {
        return None, c;
      }
      var created;
      created, c := CreateGroup(c, region, opts.groupName, env);
      if created.None? {
        return None, c;
      }
      r, c := Launch(c, region, ClientToken(Base(opts), attempt), created.value, env);
      if r.None? {
        c := DeleteGroup(c, region, created.value, env.deleteOk);
      }
    }
  }

  /** The retried launch is answered. */
  predicate Answered(env: Env) {
    Loop(DEFAULT_RETRY, Replies(env.faults), env.cancelled, 0).0.Nil?
  }

  /** One of the four attempts is answered, after nothing but transient failures. */
  lemma AnsweredExactly(env: Env)
    ensures Answered(env) <==>
            exists k: nat :: k < 4 && env.faults(k) == Fine && AllTransient(env, k)
  {
    NilExactly(DEFAULT_RETRY, Replies(env.faults), env.cancelled, 0);
    if k: nat :| k < 4 && env.faults(k) == Fine && AllTransient(env, k) {
      assert SucceedsAt(DEFAULT_RETRY, Replies(env.faults), env.cancelled, 0, k);
    }
    if k: nat :| SucceedsAt(DEFAULT_RETRY, Replies(env.faults), env.cancelled, 0, k) {
      forall i: nat | i < k
        ensures (env.faults(i) == FailBefore(true) || env.faults(i) == FailAfter(true)) && !env.cancelled(i)
      {
        assert Replies(env.faults)(i) == Reply(env.faults(i)) == Failure(true);
      }
      assert k < 4 && env.faults(k) == Fine && AllTransient(env, k);
    }
  }

  /** The first `k` launches all failed transiently, with or without effect, and were not
      followed by a cancellation. */
  ghost predicate AllTransient(env: Env, k: nat) {
    forall i: nat :: i < k ==>
      (env.faults(i) == FailBefore(true) || env.faults(i) == FailAfter(true)) && !env.cancelled(i)
  }

  lemma LaunchFacts(s: seq<Instance>, inst: Instance, faults: nat -> Fault, n: nat)
    requires n > 0
    ensures var s' := AfterCalls(s, inst, faults, n);
            var r := if faults(n - 1).Fine? then Named(s', inst) else None;
            Launches(s, inst.region, inst.token, r, s')
            && (faults(n - 1).Fine? ==> r.Some?)
            && (forall i :: |s| <= i < |s'| ==> s'[i] == inst)
            && (inst.token != "" && !Used(s, inst.region, inst.token) ==> (|s'| > |s| <==> Effective(faults, n)))
  {
    var s' := AfterCalls(s, inst, faults, n);
    if inst.token != "" {
      LaunchesOnce(s, inst, faults, n);
      if Effective(faults, n) && !Used(s, inst.region, inst.token) {
        assert s'[|s|] == inst;
      }
    } else {
      LaunchesWithoutToken(s, inst, faults, n);
    }
  }

  // ---------------------------------------------------------------- runs of calls

  /** One CreateVM call of a process, with the instances before and after it. */
  datatype Call = Call(base: string, region: string, before: seq<Instance>, result: Option<nat>, after: seq<Instance>)

  /** Carries no token that a process whose counter stands at `seq0` will send. */
  ghost predicate Foreign(inst: Instance, seq0: nat) {
    forall b: string, n: nat :: b != "" && n > seq0 ==> inst.token != ClientToken(b, n)
  }

  /** Consecutive calls of one process; other parties may launch instances in between. */
  ghost predicate Run(calls: seq<Call>, seq0: nat) {
    && (forall i :: 0 <= i < |calls| ==>
          calls[i].base != "" &&
          Launches(calls[i].before, calls[i].region, ClientToken(calls[i].base, seq0 + i + 1), calls[i].result,
                   calls[i].after))
    && (forall i: nat {:trigger Continues(calls, seq0, i)} :: i < |calls| ==> Continues(calls, seq0, i))
  }

  ghost predicate Continues(calls: seq<Call>, seq0: nat, i: nat)
    requires i < |calls|
  {
    var earlier := if i == 0 then [] else calls[i - 1].after;
    && earlier <= calls[i].before
    && forall j :: |earlier| <= j < |calls[i].before| ==> Foreign(calls[i].before[j], seq0)
  }

  /** Launched by one of the first `k` calls. */
  ghost predicate Own(inst: Instance, seq0: nat, k: nat) {
    exists b: string, n: nat :: b != "" && seq0 < n <= seq0 + k && inst.token == ClientToken(b, n)
  }

  ghost predicate Known(inst: Instance, seq0: nat, k: nat) {
    Foreign(inst, seq0) || Own(inst, seq0, k)
  }

  /** What call `i` finds, it knows, if the call before it knew what it found. */
  lemma KnownStep(calls: seq<Call>, seq0: nat, i: nat, j: nat)
    requires Run(calls, seq0) && i < |calls| && j < |calls[i].before|
    requires i > 0 && j < |calls[i - 1].before| ==> Known(calls[i - 1].before[j], seq0, i - 1)
    ensures Known(calls[i].before[j], seq0, i)
  {
    assert Continues(calls, seq0, i);
    if i > 0 && j < |calls[i - 1].after| {
      var prev := calls[i - 1];
      var token := ClientToken(prev.base, seq0 + (i - 1) + 1);
      assert Launches(prev.before, prev.region, token, prev.result, prev.after);
      assert calls[i].before[j] == prev.after[j];
      if j < |prev.before| {
        OwnGrows(prev.before[j], seq0, i - 1);
      } else {
        assert prev.after[j].token == token;
      }
    }
  }

  lemma OwnGrows(inst: Instance, seq0: nat, k: nat)
    ensures Own(inst, seq0, k) ==> Own(inst, seq0, k + 1)
  {
    if Own(inst, seq0, k) {
      var b: string, n: nat :| b != "" && seq0 < n <= seq0 + k && inst.token == ClientToken(b, n);
      assert n <= seq0 + (k + 1);
    }
  }

  lemma {:induction false} KnownTokens(calls: seq<Call>, seq0: nat, i: nat, j: nat)
    requires Run(calls, seq0) && i < |calls| && j < |calls[i].before|
    ensures Known(calls[i].before[j], seq0, i)
    decreases i
  {
    if i > 0 && j < |calls[i - 1].before| {
      KnownTokens(calls, seq0, i - 1, j);
    }
    KnownStep(calls, seq0, i, j);
  }

  lemma TokenIsFresh(calls: seq<Call>, seq0: nat, i: nat)
    requires Run(calls, seq0) && i < |calls|
    ensures !Used(calls[i].before, calls[i].region, ClientToken(calls[i].base, seq0 + i + 1))
  {
    var token := ClientToken(calls[i].base, seq0 + i + 1);
    var found := Find(calls[i].before, calls[i].region, token);
    if found.Some? {
      KnownTokens(calls, seq0, i, found.value);
      var inst := calls[i].before[found.value];
      assert !Foreign(inst, seq0);
      var b: string, n: nat :| b != "" && seq0 < n <= seq0 + i && inst.token == ClientToken(b, n);
      TokensDistinct(b, n, calls[i].base, seq0 + i + 1);
      assert false;
    }
  }

  ghost predicate Grows(calls: seq<Call>, j: nat) {
    0 < j < |calls| ==> calls[j - 1].before <= calls[j - 1].after && calls[j - 1].after <= calls[j].before
  }

  lemma NextCall(calls: seq<Call>, seq0: nat, j: nat)
    requires Run(calls, seq0)
    ensures Grows(calls, j)
  {
    if 0 < j < |calls| {
      assert Continues(calls, seq0, j);
      var prev := calls[j - 1];
      assert Launches(prev.before, prev.region, ClientToken(prev.base, seq0 + (j - 1) + 1), prev.result, prev.after);
    }
  }

  lemma PrefixChain(a: seq<Instance>, b: seq<Instance>, c: seq<Instance>, d: seq<Instance>)
    requires a <= b && b <= c && c <= d
    ensures a <= d
  {
  }

  lemma {:induction false} InstancesAccumulate(calls: seq<Call>, i: nat, j: nat)
    requires i < j < |calls| && forall k: nat :: Grows(calls, k)
    ensures calls[i].after <= calls[j].before
    decreases j
  {
    assert Grows(calls, j);
    if i + 1 < j {
      InstancesAccumulate(calls, i, j - 1);
      PrefixChain(calls[i].after, calls[j - 1].before, calls[j - 1].after, calls[j].before);
    }
  }

  /** Every successful call of a process gets an instance launched for that call, and at
      most one: a re-provision never gets an earlier call's instance back. */
  lemma EveryCallGetsItsOwn(calls: seq<Call>, seq0: nat, i: nat)
    requires Run(calls, seq0) && i < |calls|
    ensures |calls[i].before| <= |calls[i].after| <= |calls[i].before| + 1
    ensures calls[i].result.Some? ==> calls[i].result.value == |calls[i].before| == |calls[i].after| - 1
    ensures calls[i].result.Some? ==> forall j :: 0 <= j < i ==> calls[j].result != calls[i].result
  {
    TokenIsFresh(calls, seq0, i);
    if calls[i].result.Some? {
      forall k: nat ensures Grows(calls, k) {
        NextCall(calls, seq0, k);
      }
      forall j | 0 <= j < i ensures calls[j].result != calls[i].result {
        InstancesAccumulate(calls, j, i);
      }
    }
  }
}
