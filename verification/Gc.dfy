/** Garbage collection of cloud resources: what may be destroyed, relative to the run
    records read at the start. */
module Gc {
  import opened Common

  /** `Other` is any text that is not a known state; it is not terminal. */
  datatype RunState =
    | Created | Planning | Validated | AwaitingApproval | Preparing | Running | CollectingArtifacts | ReconcilingCost
    | CleaningUp | Stopping | Other(text: string)
    | Completed | PlanInvalid | ApprovalDenied | PackageFailed | ProvisioningFailed | ExecutionFailed
    | BudgetExceeded | ArtifactFailed | CleanupFailed | CostUnknown

  predicate IsTerminal(s: RunState) {
    s.Completed? || s.PlanInvalid? || s.ApprovalDenied? || s.PackageFailed? || s.ProvisioningFailed?
    || s.ExecutionFailed? || s.BudgetExceeded? || s.ArtifactFailed? || s.CleanupFailed? || s.CostUnknown?
  }

  /** A run record as loaded: parsed, or unreadable with the plan id recovered from its raw
      file ("" when that fails too). */
  datatype Record = Loaded(planId: string, state: RunState) | Unreadable(recovered: string)

  datatype Resource = Resource(id: string, tags: map<string, string>, runId: string)

  predicate Owned(r: Resource) {
    "dispatcher" in r.tags && r.tags["dispatcher"] == "true"
  }

  // ---------------------------------------------------------------- the rule

  /** The record forbids destroying resources of the run: the run may be live, its outputs
      are kept for recovery, or nobody can tell. */
  predicate Protects(rec: Record, runId: string) {
    match rec
    case Loaded(planId, state) => planId == runId && (!IsTerminal(state) || state.ArtifactFailed?)
    case Unreadable(recovered) => recovered == "" || recovered == runId
  }

  predicate Reapable(records: seq<Record>, r: Resource) {
    Owned(r) && r.runId != "" && forall i :: 0 <= i < |records| ==> !Protects(records[i], r.runId)
  }

  /** What reapable means, state by state: dispatcher's own, of a run, and every record is
      of another run or says that this one is over and left nothing to recover. */
  lemma ReapableMeans(records: seq<Record>, r: Resource)
    ensures Reapable(records, r) <==>
            && "dispatcher" in r.tags && r.tags["dispatcher"] == "true" && r.runId != ""
            && forall i :: 0 <= i < |records| ==>
                 match records[i]
                 case Unreadable(recovered) => recovered != "" && recovered != r.runId
                 case Loaded(planId, state) =>
                   planId == r.runId ==>
                     state in {Completed, PlanInvalid, ApprovalDenied, PackageFailed, ProvisioningFailed,
                               ExecutionFailed, BudgetExceeded, CleanupFailed, CostUnknown}
  {
  }

  // ---------------------------------------------------------------- scanning the records

  datatype Guard = Guard(active: set<string>, unreadable: set<string>, unrecoverable: bool)

  predicate Spares(g: Guard, runId: string) {
    runId in g.active || g.unrecoverable || runId in g.unreadable
  }

  ghost predicate Protected(records: seq<Record>, runId: string) {
    exists i :: 0 <= i < |records| && Protects(records[i], runId)
  }

  /** The guard spares exactly the runs that some record protects. */
  ghost predicate GuardFor(g: Guard, records: seq<Record>) {
    forall runId: string :: runId != "" ==> (Spares(g, runId) <==> Protected(records, runId))
  }

  method ScanRecords(records: seq<Record>) returns (g: Guard)
    ensures GuardFor(g, records)
  {
    g := Guard({}, {}, false);
    for i := 0 to |records|
      invariant GuardFor(g, records[..i])
    {
      ProtectedStep(records, i);
      ghost var before := g;
      match records[i] {
        case Unreadable(pid) =>
          if pid != "" {
            g := g.(unreadable := g.unreadable + {pid});
          } else {
            g := g.(unrecoverable := true);
          }
        case Loaded(planId, state) =>
          if !IsTerminal(state) {
            g := g.(active := g.active + {planId});
          } else if state.ArtifactFailed? {
            g := g.(active := g.active + {planId});
          }
      }
      assert forall runId: string :: runId != "" ==>
             (Spares(g, runId) <==> Spares(before, runId) || Protects(records[i], runId));
    }
    assert records[..|records|] == records;
  }

  lemma ProtectedStep(records: seq<Record>, i: nat)
    requires i < |records|
    ensures forall runId: string :: Protected(records[..i + 1], runId) <==>
            Protected(records[..i], runId) || Protects(records[i], runId)
  {
    var a, b := records[..i], records[..i + 1];
    assert b == a + [records[i]];
    forall runId: string ensures Protected(b, runId) <==> Protected(a, runId) || Protects(records[i], runId) {
      assert b[i] == records[i];
      if Protected(a, runId) {
        var k :| 0 <= k < |a| && Protects(a[k], runId);
        assert b[k] == a[k];
      }
    }
  }

  // ---------------------------------------------------------------- classification

  /** An adapter's listing; None when it cannot be obtained. */
  type Listing = Option<seq<Resource>>

  function Listed(listings: seq<Listing>): seq<Resource> {
    if listings == [] then []
    else
      var last := listings[|listings| - 1];
      Listed(listings[..|listings| - 1]) + if last.Some? then last.value else []
  }

  lemma {:induction false} ListedConcat(a: seq<Listing>, b: seq<Listing>)
    ensures Listed(a + b) == Listed(a) + Listed(b)
    decreases |b|
  {
    if b == [] {
      assert a + b == a;
    } else {
      assert (a + b)[..|a + b| - 1] == a + b[..|b| - 1];
      ListedConcat(a, b[..|b| - 1]);
    }
  }

  /** What is listed is every listing that was obtained, whole, and nothing besides. */
  lemma ListedExactly(a: seq<Listing>, l: Listing, b: seq<Listing>)
    ensures Listed(a + [l] + b) == Listed(a) + (if l.Some? then l.value else []) + Listed(b) && Listed([]) == []
  {
    assert [l][..0] == [];
    assert Listed([l]) == [] + if l.Some? then l.value else [];
    ListedConcat(a, [l]);
    ListedConcat(a + [l], b);
  }

  /** The reapable resources among those listed. */
  function Reapables(records: seq<Record>, rs: seq<Resource>): seq<Resource> {
    if rs == [] then []
    else
      var n := |rs| - 1;
      Reapables(records, rs[..n]) + if Reapable(records, rs[n]) then [rs[n]] else []
  }

  lemma {:induction false} ReapablesCounts(records: seq<Record>, rs: seq<Resource>, r: Resource)
    ensures multiset(Reapables(records, rs))[r] == if Reapable(records, r) then multiset(rs)[r] else 0
    decreases |rs|
  {
    if rs != [] {
      var n := |rs| - 1;
      ReapablesCounts(records, rs[..n], r);
      assert rs == rs[..n] + [rs[n]];
    }
  }

  lemma AsManyOrphans(orphans: seq<Resource>, records: seq<Record>, rs: seq<Resource>)
    requires forall r :: multiset(orphans)[r] == if Reapable(records, r) then multiset(rs)[r] else 0
    ensures |orphans| == |Reapables(records, rs)|
  {
    forall r: Resource ensures multiset(orphans)[r] == multiset(Reapables(records, rs))[r] {
      ReapablesCounts(records, rs, r);
    }
    assert multiset(orphans) == multiset(Reapables(records, rs));
    assert |multiset(orphans)| == |orphans| && |multiset(Reapables(records, rs))| == |Reapables(records, rs)|;
  }

  datatype Classes = Classes(external: seq<Resource>, standing: seq<Resource>, spared: seq<Resource>,
                             orphans: seq<Resource>)
  {
    function All(): multiset<Resource> {
      multiset(external) + multiset(standing) + multiset(spared) + multiset(orphans)
    }
  }

  /** Each class holds only what belongs to it; the four descriptions exclude one another. */
  ghost predicate Sorted(c: Classes, records: seq<Record>) {
    && (forall r :: r in c.external ==> !Owned(r))
    && (forall r :: r in c.standing ==> Owned(r) && r.runId == "")
    && (forall r :: r in c.spared ==> Owned(r) && r.runId != "" && !Reapable(records, r))
    && (forall r :: r in c.orphans ==> Reapable(records, r))
  }

  method Place(c: Classes, g: Guard, r: Resource, ghost records: seq<Record>) returns (c': Classes)
    requires Sorted(c, records) && GuardFor(g, records)
    ensures Sorted(c', records) && c'.All() == c.All() + multiset{r}
  {
    if !Owned(r) {
      return c.(external := c.external + [r]);
    }
    if r.runId == "" {
      return c.(standing := c.standing + [r]);
    }
    assert Spares(g, r.runId) <==> !Reapable(records, r);
    if r.runId in g.active || g.unrecoverable || r.runId in g.unreadable {
      return c.(spared := c.spared + [r]);
    }
    return c.(orphans := c.orphans + [r]);
  }

  method PlaceAll(c0: Classes, g: Guard, resources: seq<Resource>, ghost records: seq<Record>) returns (c: Classes)
    requires Sorted(c0, records) && GuardFor(g, records)
    ensures Sorted(c, records) && c.All() == c0.All() + multiset(resources)
  {
    c := c0;
    for k := 0 to |resources|
      invariant Sorted(c, records) && c.All() == c0.All() + multiset(resources[..k])
    {
      assert resources[..k + 1] == resources[..k] + [resources[k]];
      c := Place(c, g, resources[k], records);
    }
    assert resources[..|resources|] == resources;
  }

  /** Every listed resource lands in exactly one class, the one it belongs to. */
  method Classify(listings: seq<Listing>, g: Guard, ghost records: seq<Record>) returns (c: Classes)
    requires GuardFor(g, records)
    ensures Sorted(c, records) && c.All() == multiset(Listed(listings))
  {
    c := Classes([], [], [], []);
    for i := 0 to |listings|
      invariant Sorted(c, records) && c.All() == multiset(Listed(listings[..i]))
    {
      assert listings[..i + 1][..i] == listings[..i];
      if listings[i].Some? {
        c := PlaceAll(c, g, listings[i].value, records);
      }
    }
    assert listings[..|listings|] == listings;
  }

  /** The orphans are exactly the reapable listed resources. */
  lemma OrphansExact(c: Classes, listings: seq<Listing>, records: seq<Record>, r: Resource)
    requires Sorted(c, records) && c.All() == multiset(Listed(listings))
    ensures multiset(c.orphans)[r] == if Reapable(records, r) then multiset(Listed(listings))[r] else 0
  {
    assert r in c.external <==> multiset(c.external)[r] > 0;
    assert r in c.standing <==> multiset(c.standing)[r] > 0;
    assert r in c.spared <==> multiset(c.spared)[r] > 0;
    assert r in c.orphans <==> multiset(c.orphans)[r] > 0;
    assert multiset(Listed(listings))[r] == c.All()[r];
  }

  // ---------------------------------------------------------------- the command

  datatype Flags = Flags(dryRun: bool, json: bool, force: bool, allowEmptyStore: bool)

  ghost predicate IsReaped(calls: seq<Resource>, records: seq<Record>, listings: seq<Listing>, allowed: bool) {
    forall r :: multiset(calls)[r] == if allowed && Reapable(records, r) then multiset(Listed(listings))[r] else 0
  }

  datatype Outcome = Done(found: nat, destroyed: nat) | Refused

  /** The resources among `rs` whose destruction succeeds. */
  function Successes(rs: seq<Resource>, destroyOk: Resource -> bool): seq<Resource> {
    if rs == [] then []
    else
      var n := |rs| - 1;
      Successes(rs[..n], destroyOk) + if destroyOk(rs[n]) then [rs[n]] else []
  }

  lemma {:induction false} SuccessesCounts(rs: seq<Resource>, destroyOk: Resource -> bool, r: Resource)
    ensures multiset(Successes(rs, destroyOk))[r] == if destroyOk(r) then multiset(rs)[r] else 0
  {
    if rs != [] {
      var n := |rs| - 1;
      SuccessesCounts(rs[..n], destroyOk, r);
      assert rs == rs[..n] + [rs[n]];
    }
  }

  /** Either destroy loop: one DestroyResource call per orphan; a run's key files go only
      when its resource went. */
  method DestroyAll(orphans: seq<Resource>, destroyOk: Resource -> bool)
    returns (calls: seq<Resource>, keysRemoved: seq<string>, destroyed: nat)
    ensures calls == orphans && destroyed == |Successes(orphans, destroyOk)|
    ensures forall id :: id in keysRemoved <==> id != "" && exists r :: r in orphans && destroyOk(r) && r.runId == id
  {
    calls, keysRemoved, destroyed := [], [], 0;
    for i := 0 to |orphans|
      invariant calls == orphans[..i] && destroyed == |Successes(orphans[..i], destroyOk)|
      invariant forall id :: id in keysRemoved <==>
                id != "" && exists r :: r in orphans[..i] && destroyOk(r) && r.runId == id
    {
      var o := orphans[i];
      assert orphans[..i + 1] == orphans[..i] + [o] && orphans[..i + 1][..i] == orphans[..i];
      calls := calls + [o];
      if destroyOk(o) {
        destroyed := destroyed + 1;
        assert o in orphans[..i + 1];
        if o.runId != "" {
          keysRemoved := keysRemoved + [o.runId];
        }
      }
    }
    assert orphans[..|orphans|] == orphans;
  }

  /** `records` is None when the store cannot be enumerated. The calls are exactly the
      reapable listed resources when the invocation may destroy, and none otherwise. */
  method Collect(records: Option<seq<Record>>, listings: seq<Listing>, flags: Flags, confirmed: bool,
                 destroyOk: Resource -> bool)
    returns (out: Outcome, calls: seq<Resource>, keysRemoved: seq<string>)
    ensures records.None? ==> out.Refused? && calls == []
    ensures records.Some? ==>
              IsReaped(calls, records.value, listings,
                       && !flags.dryRun
                       && (flags.force || (!flags.json && confirmed))
                       && (flags.allowEmptyStore || records.value != []))
    ensures forall id :: id in keysRemoved <==> id != "" && exists r :: r in calls && destroyOk(r) && r.runId == id
    ensures out.Done? ==>
              records.Some? && out.found == |Reapables(records.value, Listed(listings))|
              && out.destroyed == |Successes(calls, destroyOk)|
    // Refused: something to destroy, with JSON output and no --yes, or with an empty store.
    ensures records.Some? ==>
              (out.Refused? <==>
               && Reapables(records.value, Listed(listings)) != [] && !flags.dryRun
               && ((flags.json && !flags.force) || (!flags.allowEmptyStore && records.value == [])))
    ensures out.Refused? ==> calls == []
  {
    calls, keysRemoved := [], [];
    if records.None? {
      return Refused, calls, keysRemoved;
    }
    var store := records.value;
    var g := ScanRecords(store);
    if |listings| == 0 {
      return Done(0, 0), calls, keysRemoved;
    }
    var c := Classify(listings, g, store);
    var orphans := c.orphans;
    forall r ensures multiset(orphans)[r] == if Reapable(store, r) then multiset(Listed(listings))[r] else 0 {
      OrphansExact(c, listings, store, r);
    }
    AsManyOrphans(orphans, store, Listed(listings));
    var willDestroy := !flags.dryRun && (!flags.json || flags.force);
    if willDestroy && !flags.allowEmptyStore && |store| == 0 && |orphans| > 0 {
      return Refused, calls, keysRemoved;
    }
    var destroyed := 0;
    if flags.json {
      if |orphans| > 0 && !flags.dryRun && !flags.force {
        return Refused, calls, keysRemoved;
      }
      if !flags.dryRun {
        calls, keysRemoved, destroyed := DestroyAll(orphans, destroyOk);
      }
      return Done(|orphans|, destroyed), calls, keysRemoved;
    }
    if |orphans| == 0 || flags.dryRun || (!flags.force && !confirmed) {
      return Done(|orphans|, 0), calls, keysRemoved;
    }
    calls, keysRemoved, destroyed := DestroyAll(orphans, destroyOk);
    return Done(|orphans|, destroyed), calls, keysRemoved;
  }

  // ---------------------------------------------------------------- failing closed

  /** A text longer than every plan id of the records. */
  function Fresh(records: seq<Record>): (s: string)
    ensures s != ""
    ensures forall i :: 0 <= i < |records| ==>
            |s| > |if records[i].Loaded? then records[i].planId else records[i].recovered|
  {
    if records == [] then "x"
    else
      var n := |records| - 1;
      Fresh(records[..n]) + (if records[n].Loaded? then records[n].planId else records[n].recovered)
  }

  /** Nothing at all is reapable if and only if some record is unreadable beyond recovery:
      any other store leaves the resources of unknown runs to be destroyed. */
  lemma NothingReapableExactly(records: seq<Record>)
    ensures (forall r: Resource :: !Reapable(records, r)) <==>
            exists i :: 0 <= i < |records| && records[i] == Unreadable("")
  {
    if i :| 0 <= i < |records| && records[i] == Unreadable("") {
      forall r: Resource ensures !Reapable(records, r) {
        assert Protects(records[i], r.runId);
      }
    } else {
      var r := Resource("", map["dispatcher" := "true"], Fresh(records));
      assert Owned(r) && Reapable(records, r);
    }
  }
}
