/** Addresses of the per-run /30 blocks inside 172.16.0.0/16. */
module FirecrackerNet {
  import Decimal

  const SUBNETS := 16384

  datatype Block = Block(third: int, low: int)

  function BlockOf(idx: nat): Block {
    Block(4 * idx / 256 % 256, 4 * idx % 256)
  }

  /** 172.16.third.low of the d-th address of a block, as the low 16 bits of the address. */
  function Address(idx: nat, d: nat): int {
    256 * BlockOf(idx).third + BlockOf(idx).low + d
  }

  /** Every block has all its octets in range, the host and guest are inside it, and two
      blocks share no address. */
  lemma BlocksDisjoint(i: nat, j: nat, d: nat, e: nat)
    requires i < SUBNETS && j < SUBNETS && d < 4 && e < 4
    ensures 0 <= BlockOf(i).third < 256 && 0 <= BlockOf(i).low && BlockOf(i).low + 3 < 256
    ensures Address(i, d) == 4 * i + d
    ensures Address(i, d) == Address(j, e) ==> i == j && d == e
  {
    OctetsExact(i);
    OctetsExact(j);
  }

  lemma OctetsExact(i: nat)
    requires i < SUBNETS
    ensures 256 * BlockOf(i).third + BlockOf(i).low == 4 * i
    ensures 0 <= BlockOf(i).third < 256 && 0 <= BlockOf(i).low && BlockOf(i).low + 3 < 256
  {
    assert 4 * i / 256 == i / 64 && 4 * i % 256 == 4 * (i % 64);
  }

  /** The text of the d-th address of a block: 0 the network, 1 the host, 2 the guest. */
  function Ip(idx: nat, d: nat): string {
    "172.16." + Decimal.Itoa(BlockOf(idx).third) + "." + Decimal.Itoa(BlockOf(idx).low + d)
  }

  /** No two addresses of any two blocks have the same text: the guest's is not the host's,
      nor any other VM's. */
  lemma IpInjective(i: nat, d: nat, j: nat, e: nat)
    requires i < SUBNETS && j < SUBNETS && d < 4 && e < 4 && Ip(i, d) == Ip(j, e)
    ensures i == j && d == e
  {
    var bi, bj := BlockOf(i), BlockOf(j);
    assert Ip(i, d) == "172.16." + Dotted(bi.third, bi.low + d) + "";
    assert Ip(j, e) == "172.16." + Dotted(bj.third, bj.low + e) + "";
    MiddleOf("172.16.", Dotted(bi.third, bi.low + d), "");
    MiddleOf("172.16.", Dotted(bj.third, bj.low + e), "");
    DottedInjective(bi.third, bi.low + d, bj.third, bj.low + e);
    BlocksDisjoint(i, j, d, e);
  }

  function Cidr(idx: nat): string {
    "172.16." + Decimal.Itoa(BlockOf(idx).third) + "." + Decimal.Itoa(BlockOf(idx).low) + "/30"
  }

  function Dotted(a: nat, b: nat): string {
    Decimal.Itoa(a) + "." + Decimal.Itoa(b)
  }

  lemma DottedInjective(a: nat, b: nat, c: nat, d: nat)
    requires Dotted(a, b) == Dotted(c, d)
    ensures a == c && b == d
  {
    var t := Dotted(a, b);
    var p, q := Decimal.Itoa(a), Decimal.Itoa(c);
    assert t[|p|] == '.' && t[|q|] == '.';
    assert forall i :: 0 <= i < |p| ==> t[i] == p[i];
    assert forall i :: 0 <= i < |q| ==> t[i] == q[i];
    assert |p| == |q|;
    assert p == t[..|p|] && q == t[..|q|];
    assert Decimal.Itoa(b) == t[|p| + 1..] && Decimal.Itoa(d) == t[|q| + 1..];
    Decimal.ItoaRoundTrip(a);
    Decimal.ItoaRoundTrip(b);
    Decimal.ItoaRoundTrip(c);
    Decimal.ItoaRoundTrip(d);
  }

  lemma MiddleOf(p: string, m: string, s: string)
    ensures (p + m + s)[|p|..|p + m + s| - |s|] == m
  {
  }

  /** Different blocks have different CIDR texts. */
  lemma CidrInjective(i: nat, j: nat)
    requires i < SUBNETS && j < SUBNETS && Cidr(i) == Cidr(j)
    ensures i == j
  {
    var bi, bj := BlockOf(i), BlockOf(j);
    assert Cidr(i) == "172.16." + Dotted(bi.third, bi.low) + "/30";
    assert Cidr(j) == "172.16." + Dotted(bj.third, bj.low) + "/30";
    MiddleOf("172.16.", Dotted(bi.third, bi.low), "/30");
    MiddleOf("172.16.", Dotted(bj.third, bj.low), "/30");
    DottedInjective(bi.third, bi.low, bj.third, bj.low);
    OctetsExact(i);
    OctetsExact(j);
  }
}

/** Subnet allocation and host networking of local microVMs. */
module Firecracker {
  import opened Common
  import opened FirecrackerNet
  import Decimal

  // ---------------------------------------------------------------- the host

  /** iptables rules: NAT of a block, and forwarding between a tap and an interface. A
      block is named by its index, which its CIDR text determines (CidrInjective), and a tap
      by the crc32 of its run id, which its hexadecimal name determines. */
  datatype Rule =
    | Masquerade(block: nat, iface: string)
    | Outbound(tap: nat, iface: string)
    | Inbound(iface: string, tap: nat)

  /** A run directory: its subnet file, and its iface file ("" when none can be read). */
  datatype Dir = Dir(subnet: Option<string>, iface: string)

  datatype Host = Host(rules: multiset<Rule>, taps: set<nat>, dirs: map<string, Dir>)

  function NatRules(block: nat, iface: string, tap: nat): (s: seq<Rule>)
    ensures |s| == 3
  {
    [Masquerade(block, iface), Outbound(tap, iface), Inbound(iface, tap)]
  }

  // ---------------------------------------------------------------- the subnet file

  function IndexText(d: Dir): Option<int> {
    if d.subnet.Some? then Decimal.Atoi(Decimal.TrimSpace(d.subnet.value)) else None
  }

  function Recorded(d: Dir): Option<nat> {
    match IndexText(d)
    case Some(n) => if 0 <= n < SUBNETS then Some(n) else None
    case None => None
  }

  type Crc = string -> nat

  function Bucket(crc: Crc, id: string): (b: nat)
    ensures b < SUBNETS
  {
    crc(id) % SUBNETS
  }

  /** fcReadSubnetIndex: the recorded index, else the hash bucket. */
  function ReadIndex(crc: Crc, d: Dir, id: string): (n: nat)
    ensures n < SUBNETS
  {
    if Recorded(d).Some? then Recorded(d).value else Bucket(crc, id)
  }

  /** An allocated index reads back. */
  lemma RecordedReadsBack(idx: nat, iface: string)
    requires idx < SUBNETS
    ensures IndexText(Dir(Some(Decimal.Itoa(idx)), iface)) == Some(idx)
    ensures Recorded(Dir(Some(Decimal.Itoa(idx)), iface)) == Some(idx)
  {
    Decimal.AtoiOfItoa(idx);
  }

  // ---------------------------------------------------------------- allocation

  /** The indices of the other runs' directories, as far as the scan can read them. */
  function Used(dirs: map<string, Dir>, self: string, unread: set<string>): set<int> {
    set id | id in dirs && id != self && id !in unread && IndexText(dirs[id]).Some? :: IndexText(dirs[id]).value
  }

  /** fcUsedSubnetIndices: what cannot be read or parsed counts as unused. */
  method UsedIndices(dirs: map<string, Dir>, self: string, unread: set<string>) returns (used: set<int>)
    ensures used == Used(dirs, self, unread)
  {
    used := {};
    var todo := dirs.Keys;
    while todo != {}
      invariant todo <= dirs.Keys
      invariant used == UsedAmong(dirs, dirs.Keys - todo, self, unread)
      decreases todo
    {
      var id :| id in todo;
      todo := todo - {id};
      if id != self && id !in unread && IndexText(dirs[id]).Some? {
        used := used + {IndexText(dirs[id]).value};
      }
    }
  }

  function UsedAmong(dirs: map<string, Dir>, ids: set<string>, self: string, unread: set<string>): set<int>
    requires ids <= dirs.Keys
  {
    set id | id in ids && id != self && id !in unread && IndexText(dirs[id]).Some? :: IndexText(dirs[id]).value
  }

  function Candidate(start: nat, i: nat): nat {
    (start + i) % SUBNETS
  }

  /** The first unused candidate of the probe sequence, from its i-th on. */
  function FirstFree(used: set<int>, start: nat, i: nat): (r: Option<nat>)
    requires i <= SUBNETS
    ensures r.Some? ==> r.value < SUBNETS && r.value !in used
    ensures r.None? ==> forall j :: i <= j < SUBNETS ==> Candidate(start, j) in used
    decreases SUBNETS - i
  {
    if i == SUBNETS then None
    else if Candidate(start, i) in used then FirstFree(used, start, i + 1)
    else Some(Candidate(start, i))
  }

  /** Linear probing fails exactly when all 16384 indices are used. */
  lemma FullExactly(used: set<int>, start: nat)
    requires start < SUBNETS
    ensures FirstFree(used, start, 0).None? <==> forall n :: 0 <= n < SUBNETS ==> n in used
  {
    if FirstFree(used, start, 0).None? {
      forall n | 0 <= n < SUBNETS ensures n in used {
        var i := if start <= n then n - start else n - start + SUBNETS;
        CandidateIs(start, n, i);
      }
    }
  }

  lemma CandidateIs(start: nat, n: nat, i: nat)
    requires start < SUBNETS && n < SUBNETS && (start + i == n || start + i == n + SUBNETS)
    ensures Candidate(start, i) == n
  {
  }

  method AllocSubnetIndex(used: set<int>, start: nat) returns (r: Option<nat>)
    requires start < SUBNETS
    ensures r == FirstFree(used, start, 0)
    ensures r.Some? ==> r.value < SUBNETS && r.value !in used
    ensures r.Some? ==>
            exists i: nat :: r.value == Candidate(start, i) && forall j: nat :: j < i ==> Candidate(start, j) in used
    ensures r.None? <==> forall n :: 0 <= n < SUBNETS ==> n in used
  {
    FullExactly(used, start);
    for i := 0 to SUBNETS
      invariant FirstFree(used, start, 0) == FirstFree(used, start, i)
      invariant forall j: nat :: j < i ==> Candidate(start, j) in used
    {
      var cand := (start + i) % SUBNETS;
      assert cand == Candidate(start, i);
      if cand !in used {
        return Some(cand);
      }
    }
    return None;
  }

  // ---------------------------------------------------------------- network setup and teardown

  /** How a setup fares: command `failAt` fails (0-2 the tap, 3-5 the NAT rules, later
      none), and whether the iface file could be written. */
  datatype Setup = Setup(iface: string, recordOk: bool, failAt: nat)

  predicate TapOnly(taps: set<nat>, tap: nat, e: Setup) {
    e.failAt < 3 || tap in taps || e.iface == ""
  }

  function RulesAdded(taps: set<nat>, tap: nat, e: Setup): (k: nat)
    ensures k <= 3
  {
    if TapOnly(taps, tap, e) then 0 else Min(e.failAt - 3, 3)
  }

  function SetUp(h: Host, id: string, tap: nat, idx: nat, e: Setup): Host {
    var taps := if e.failAt == 0 then h.taps else h.taps + {tap};
    var d := if id in h.dirs then h.dirs[id] else Dir(None, "");
    Host(h.rules + Added(idx, e.iface, tap, RulesAdded(h.taps, tap, e)), taps,
         if !TapOnly(h.taps, tap, e) && e.recordOk then h.dirs[id := d.(iface := e.iface)] else h.dirs)
  }

  /** What a teardown can read: the default route of that moment ("" when unknown), and
      whether the run's subnet and iface files are readable. */
  datatype View = View(current: string, subnetOk: bool, ifaceOk: bool)

  /** The run directory as a teardown reads it. */
  function Seen(dirs: map<string, Dir>, id: string, v: View): Dir {
    if id !in dirs then Dir(None, "")
    else Dir(if v.subnetOk then dirs[id].subnet else None, if v.ifaceOk then dirs[id].iface else "")
  }

  /** The block and the interface whose rules a teardown deletes. */
  function NamedBlock(crc: Crc, dirs: map<string, Dir>, id: string, v: View): (n: nat)
    ensures n < SUBNETS
  {
    ReadIndex(crc, Seen(dirs, id, v), id)
  }

  function NamedIface(dirs: map<string, Dir>, id: string, v: View): string {
    if Seen(dirs, id, v).iface != "" then Seen(dirs, id, v).iface else v.current
  }

  function TornDown(crc: Crc, h: Host, id: string, v: View): Host {
    Host(h.rules - Removed(NamedBlock(crc, h.dirs, id, v), NamedIface(h.dirs, id, v), crc(id)),
         h.taps - {crc(id)}, h.dirs - {id})
  }

  /** A teardown that names `block2` and `iface2` removes the `k` rules added for `block`
      and `iface`, and names no other rule of the host. */
  predicate RemovesItsOwn(rules: multiset<Rule>, block: nat, iface: string, block2: nat, iface2: string, tap: nat,
                          k: nat) {
    && (k > 0 ==> iface2 == iface && block2 == block)
    && (iface2 != "" ==> forall j :: k <= j < 3 ==> NatRules(block2, iface2, tap)[j] !in rules)
  }

  /** Setup, stopped anywhere, then teardown restores the host's rules and taps exactly
      when the tap was new and the teardown, going by the index and interface it reads,
      removes the rules added and no other rule of the host. */
  lemma TeardownExact(crc: Crc, h: Host, id: string, idx: nat, e: Setup, later: View)
    requires id in h.dirs && h.dirs[id].iface == "" && idx < SUBNETS
    ensures var h1 := SetUp(h, id, crc(id), idx, e);
            var h2 := TornDown(crc, h1, id, later);
            h2.dirs == h.dirs - {id} &&
            (h2.rules == h.rules && h2.taps == h.taps <==> crc(id) !in h.taps && Undoes(crc, h, id, idx, e, later))
  {
    SetupThenTeardown(crc, h, id, idx, e, later);
    var iface := NamedIface(SetUp(h, id, crc(id), idx, e).dirs, id, later);
    var k := RulesAdded(h.taps, crc(id), e);
    RulesExact(h.rules, idx, e.iface, NamedBlock(crc, h.dirs, id, later), iface, crc(id), k);
  }

  /** The teardown after this setup removes the rules added and no other rule of the host. */
  predicate Undoes(crc: Crc, h: Host, id: string, idx: nat, e: Setup, later: View) {
    var iface := NamedIface(SetUp(h, id, crc(id), idx, e).dirs, id, later);
    RemovesItsOwn(h.rules, idx, e.iface, NamedBlock(crc, h.dirs, id, later), iface, crc(id),
                  RulesAdded(h.taps, crc(id), e))
  }

  lemma SetupThenTeardown(crc: Crc, h: Host, id: string, idx: nat, e: Setup, later: View)
    requires id in h.dirs
    ensures var h1 := SetUp(h, id, crc(id), idx, e);
            var h2 := TornDown(crc, h1, id, later);
            && h2.dirs == h.dirs - {id}
            && (h2.taps == h.taps <==> crc(id) !in h.taps)
            && h2.rules == h.rules + Added(idx, e.iface, crc(id), RulesAdded(h.taps, crc(id), e))
                           - Removed(NamedBlock(crc, h.dirs, id, later), NamedIface(h1.dirs, id, later), crc(id))
  {
    SetupKeepsBlock(crc, h, id, idx, e, later);
  }

  lemma SetupKeepsBlock(crc: Crc, h: Host, id: string, idx: nat, e: Setup, later: View)
    requires id in h.dirs
    ensures var h1 := SetUp(h, id, crc(id), idx, e);
            && NamedBlock(crc, h1.dirs, id, later) == NamedBlock(crc, h.dirs, id, later)
            && h1.dirs - {id} == h.dirs - {id}
  {
    IfaceKeepsIndex(Seen(h.dirs, id, later), if later.ifaceOk then e.iface else "");
  }

  lemma IfaceKeepsIndex(d: Dir, iface: string)
    ensures Recorded(d.(iface := iface)) == Recorded(d)
  {
  }

  lemma PrefixCounts(block: nat, iface: string, tap: nat, k: nat, r: Rule)
    requires k <= 3
    ensures multiset(NatRules(block, iface, tap)[..k])[r] ==
            if || (k > 0 && r == Masquerade(block, iface))
               || (k > 1 && r == Outbound(tap, iface))
               || (k > 2 && r == Inbound(iface, tap))
            then 1 else 0
  {
    var s := NatRules(block, iface, tap);
    assert s[..k] ==
           if k == 0 then [] else if k == 1 then [s[0]] else if k == 2 then [s[0], s[1]] else [s[0], s[1], s[2]];
  }

  lemma AllCounts(block: nat, iface: string, tap: nat, r: Rule)
    ensures multiset(NatRules(block, iface, tap))[r] ==
            if r == Masquerade(block, iface) || r == Outbound(tap, iface) || r == Inbound(iface, tap) then 1 else 0
  {
    PrefixCounts(block, iface, tap, 3, r);
    assert NatRules(block, iface, tap)[..3] == NatRules(block, iface, tap);
  }

  /** Adding and then removing rules, each once, changes nothing exactly when all that was
      added is removed and nothing else that is removed was there. */
  lemma AddRemoveExact(rules: multiset<Rule>, added: multiset<Rule>, removed: multiset<Rule>)
    requires forall r :: added[r] <= 1 && removed[r] <= 1
    ensures rules + added - removed == rules <==>
            (forall r :: r in added ==> r in removed) && (forall r :: r in removed && r !in added ==> r !in rules)
  {
    var left := rules + added - removed;
    assert forall r :: left[r] == if rules[r] + added[r] >= removed[r] then rules[r] + added[r] - removed[r] else 0;
    if (forall r :: r in added ==> r in removed) && (forall r :: r in removed && r !in added ==> r !in rules) {
      forall r: Rule ensures left[r] == rules[r] {
      }
    } else if r :| r in added && r !in removed {
      assert left[r] == rules[r] + 1;
    } else {
      var r :| r in removed && r !in added && r in rules;
      assert left[r] == rules[r] - 1;
    }
  }

  function Removed(block: nat, iface: string, tap: nat): multiset<Rule> {
    if iface != "" then multiset(NatRules(block, iface, tap)) else multiset{}
  }

  lemma RemovedCounts(block: nat, iface: string, tap: nat, r: Rule)
    ensures Removed(block, iface, tap)[r] ==
            if iface != "" && (r == Masquerade(block, iface) || r == Outbound(tap, iface) || r == Inbound(iface, tap))
            then 1 else 0
  {
    AllCounts(block, iface, tap, r);
  }

  function Added(block: nat, iface: string, tap: nat, k: nat): multiset<Rule>
    requires k <= 3
  {
    multiset(NatRules(block, iface, tap)[..k])
  }

  lemma AddedAreRemoved(block: nat, iface: string, block2: nat, iface2: string, tap: nat, k: nat)
    requires k <= 3 && (k > 0 ==> iface != "")
    ensures (forall r :: r in Added(block, iface, tap, k) ==> r in Removed(block2, iface2, tap)) <==>
            (k > 0 ==> iface2 == iface && block2 == block)
  {
    if k > 0 && !(iface2 == iface && block2 == block) {
      var r := Masquerade(block, iface);
      PrefixCounts(block, iface, tap, k, r);
      RemovedCounts(block2, iface2, tap, r);
      assert r in Added(block, iface, tap, k);
    } else {
      forall r | r in Added(block, iface, tap, k) ensures r in Removed(block2, iface2, tap) {
        PrefixCounts(block, iface, tap, k, r);
        RemovedCounts(block2, iface2, tap, r);
      }
    }
  }

  /** The rules a teardown names beyond the first `k` are its `k`-th and later ones. */
  lemma RestRemoved(rules: multiset<Rule>, block: nat, iface: string, block2: nat, iface2: string, tap: nat, k: nat)
    requires k <= 3 && (k > 0 ==> iface2 == iface && block2 == block)
    ensures (forall r :: r in Removed(block2, iface2, tap) && r !in Added(block, iface, tap, k) ==> r !in rules) <==>
            (iface2 != "" ==> forall j :: k <= j < 3 ==> NatRules(block2, iface2, tap)[j] !in rules)
  {
    var t := NatRules(block2, iface2, tap);
    if iface2 != "" {
      forall j | k <= j < 3 ensures t[j] in Removed(block2, iface2, tap) && t[j] !in Added(block, iface, tap, k) {
        PrefixCounts(block, iface, tap, k, t[j]);
        RemovedCounts(block2, iface2, tap, t[j]);
      }
    }
    forall r | r in Removed(block2, iface2, tap) && r !in Added(block, iface, tap, k)
      ensures iface2 != "" && ((k <= 0 && r == t[0]) || (k <= 1 && r == t[1]) || (k <= 2 && r == t[2]))
    {
      PrefixCounts(block, iface, tap, k, r);
      RemovedCounts(block2, iface2, tap, r);
    }
  }

  lemma RulesExact(rules: multiset<Rule>, block: nat, iface: string, block2: nat, iface2: string, tap: nat, k: nat)
    requires k <= 3 && (k > 0 ==> iface != "")
    ensures rules + Added(block, iface, tap, k) - Removed(block2, iface2, tap) == rules <==>
            RemovesItsOwn(rules, block, iface, block2, iface2, tap, k)
  {
    forall r: Rule ensures Added(block, iface, tap, k)[r] <= 1 && Removed(block2, iface2, tap)[r] <= 1 {
      PrefixCounts(block, iface, tap, k, r);
      RemovedCounts(block2, iface2, tap, r);
    }
    AddRemoveExact(rules, Added(block, iface, tap, k), Removed(block2, iface2, tap));
    AddedAreRemoved(block, iface, block2, iface2, tap, k);
    if k > 0 ==> iface2 == iface && block2 == block {
      RestRemoved(rules, block, iface, block2, iface2, tap, k);
    }
  }

  /** Once the index is recorded and readable, and the interface too or the default route
      is still the same, and nothing on the host names the run's tap or block, teardown
      restores the host. */
  lemma RecordedTeardownRestores(crc: Crc, h: Host, id: string, idx: nat, e: Setup, later: View)
    requires id in h.dirs && h.dirs[id].iface == "" && later.subnetOk && Recorded(h.dirs[id]) == Some(idx)
    requires (e.recordOk && later.ifaceOk) || later.current == e.iface
    requires crc(id) !in h.taps
    requires forall r :: r in h.rules ==> !Names(r, idx, crc(id))
    ensures var h2 := TornDown(crc, SetUp(h, id, crc(id), idx, e), id, later);
            h2 == h.(dirs := h.dirs - {id})
  {
    TeardownExact(crc, h, id, idx, e, later);
    var k := RulesAdded(h.taps, crc(id), e);
    if k > 0 {
      RecordedIface(h, id, crc(id), idx, e, later);
    }
    ReadableBlock(crc, h.dirs, id, later);
    OwnRulesOnly(h.rules, idx, e.iface, NamedIface(SetUp(h, id, crc(id), idx, e).dirs, id, later), crc(id), k);
  }

  lemma ReadableBlock(crc: Crc, dirs: map<string, Dir>, id: string, v: View)
    requires id in dirs && v.subnetOk && Recorded(dirs[id]).Some?
    ensures NamedBlock(crc, dirs, id, v) == Recorded(dirs[id]).value
  {
    IfaceKeepsIndex(dirs[id], Seen(dirs, id, v).iface);
  }

  lemma RecordedIface(h: Host, id: string, tap: nat, idx: nat, e: Setup, later: View)
    requires id in h.dirs && h.dirs[id].iface == "" && RulesAdded(h.taps, tap, e) > 0
    requires (e.recordOk && later.ifaceOk) || later.current == e.iface
    ensures NamedIface(SetUp(h, id, tap, idx, e).dirs, id, later) == e.iface
  {
  }

  lemma OwnRulesOnly(rules: multiset<Rule>, block: nat, iface: string, iface2: string, tap: nat, k: nat)
    requires k > 0 ==> iface2 == iface
    requires forall r :: r in rules ==> !Names(r, block, tap)
    ensures RemovesItsOwn(rules, block, iface, block, iface2, tap, k)
  {
    assert forall j :: 0 <= j < 3 ==> Names(NatRules(block, iface2, tap)[j], block, tap);
  }

  predicate Names(r: Rule, block: nat, tap: nat) {
    match r
    case Masquerade(c, _) => c == block
    case Outbound(t, _) => t == tap
    case Inbound(_, t) => t == tap
  }

  // ---------------------------------------------------------------- CreateVM

  /** How one creation fares: what the clearing teardown and the rollback can read, which
      other run directories the allocation scan cannot read (all of them when the listing
      fails), and `leftover`: None when the subnet file is written, else what a failed write
      leaves. */
  datatype CreateEnv = CreateEnv(
    checkOk: bool, before: View, unread: set<string>, leftover: Option<Option<string>>, prepareOk: bool,
    setup: Setup, launchOk: bool, after: View)

  function Fresh(crc: Crc, h: Host, id: string, before: View): Host {
    var h1 := TornDown(crc, h, id, before);
    h1.(dirs := h1.dirs[id := Dir(None, "")])
  }

  /** The block that a creation takes, from a cleared host on. */
  function Allocated(crc: Crc, h: Host, id: string, unread: set<string>): Option<nat> {
    FirstFree(Used(h.dirs, id, unread), Bucket(crc, id), 0)
  }

  predicate NetworkUp(taps: set<nat>, tap: nat, e: Setup) {
    RulesAdded(taps, tap, e) == 3
  }

  /** The host after CreateVM, and the index of the VM when it succeeds. */
  function Created(crc: Crc, h: Host, id: string, env: CreateEnv): (Host, Option<nat>) {
    if !env.checkOk then (h, None)
    else
      var h1 := Fresh(crc, h, id, env.before);
      match Allocated(crc, h1, id, env.unread)
      case None => (h1, None)
      case Some(idx) =>
        if env.leftover.Some? then (h1.(dirs := h1.dirs[id := Dir(env.leftover.value, "")]), None)
        else
          var h2 := h1.(dirs := h1.dirs[id := Dir(Some(Decimal.Itoa(idx)), "")]);
          if !env.prepareOk then (h2, None)
          else
            var h3 := SetUp(h2, id, crc(id), idx, env.setup);
            if NetworkUp(h2.taps, crc(id), env.setup) && env.launchOk then (h3, Some(idx))
            else (TornDown(crc, h3, id, env.after), None)
  }

  /** The host as the provider's commands change it. */
  class LocalHost {
    var rules: multiset<Rule>
    var taps: set<nat>
    var dirs: map<string, Dir>

    constructor ()
      ensures State() == Host(multiset{}, {}, map[])
    {
      rules, taps, dirs := multiset{}, {}, map[];
    }

    function State(): Host
      reads this
    {
      Host(rules, taps, dirs)
    }

    /** Inserts the rules one by one until command `failAt` fails. */
    method AddRules(commands: seq<Rule>, failAt: nat) returns (ok: bool)
      modifies this`rules
      ensures rules == old(rules) + multiset(commands[..Min(failAt, |commands|)])
      ensures ok <==> |commands| <= failAt
    {
      for i := 0 to |commands|
        invariant i <= failAt && rules == old(rules) + multiset(commands[..i])
      {
        if i == failAt {
          return false;
        }
        assert commands[..i + 1] == commands[..i] + [commands[i]];
        rules := rules + multiset{commands[i]};
      }
      return true;
    }

    /** fcSetupNetwork. */
    method SetupNetwork(id: string, tap: nat, idx: nat, e: Setup) returns (ok: bool)
      requires id in dirs
      modifies this
      ensures State() == SetUp(old(State()), id, tap, idx, e)
      ensures ok == NetworkUp(old(taps), tap, e)
    {
      if e.failAt == 0 || tap in taps {
        assert NatRules(idx, e.iface, tap)[..0] == [];
        assert tap in taps ==> taps + {tap} == taps;
        return false;
      }
      taps := taps + {tap};
      if e.failAt < 3 || e.iface == "" {
        assert NatRules(idx, e.iface, tap)[..0] == [];
        return false;
      }
      if e.recordOk {
        dirs := dirs[id := dirs[id].(iface := e.iface)];
      }
      ok := AddRules(NatRules(idx, e.iface, tap), e.failAt - 3);
    }

    /** Each deletion removes one matching rule, if any. */
    method DeleteRules(commands: seq<Rule>)
      modifies this`rules
      ensures rules == old(rules) - multiset(commands)
    {
      for i := 0 to |commands|
        invariant rules == old(rules) - multiset(commands[..i])
      {
        assert commands[..i + 1] == commands[..i] + [commands[i]];
        if commands[i] in rules {
          rules := rules - multiset{commands[i]};
        }
      }
      assert commands[..|commands|] == commands;
    }

    /** teardown. */
    method Teardown(crc: Crc, id: string, v: View)
      modifies this
      ensures State() == TornDown(crc, old(State()), id, v)
    {
      var idx := NamedBlock(crc, dirs, id, v);
      var iface := if id in dirs && v.ifaceOk then dirs[id].iface else "";
      if iface == "" {
        iface := v.current;
      }
      if iface != "" {
        DeleteRules(NatRules(idx, iface, crc(id)));
      }
      taps := taps - {crc(id)};
      dirs := dirs - {id};
    }

    method CreateVM(crc: Crc, id: string, env: CreateEnv) returns (r: Option<nat>)
      modifies this
      ensures (State(), r) == Created(crc, old(State()), id, env)
    {
      if !env.checkOk {
        return None;
      }
      Teardown(crc, id, env.before);
      dirs := dirs[id := Dir(None, "")];
      assert State() == Fresh(crc, old(State()), id, env.before);
      var used := UsedIndices(dirs, id, env.unread);
      var found := AllocSubnetIndex(used, Bucket(crc, id));
      if found.None? {
        return None;
      }
      if env.leftover.Some? {
        dirs := dirs[id := Dir(env.leftover.value, "")];
        return None;
      }
      var idx := found.value;
      dirs := dirs[id := Dir(Some(Decimal.Itoa(idx)), "")];
      if !env.prepareOk {
        return None;
      }
      var up := SetupNetwork(id, crc(id), idx, env.setup);
      if !up || !env.launchOk {
        Teardown(crc, id, env.after);
        return None;
      }
      return Some(idx);
    }
  }
}
