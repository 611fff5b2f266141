/** Choosing the instance a cost estimate is based on. */
module Estimator {
  import opened Common
  import opened Decimal
  import opened Catalog

  // ---------------------------------------------------------------- parseCPU

  const TWO_63 := 0x8000_0000_0000_0000
  const TWO_64 := 0x1_0000_0000_0000_0000

  /** Signed wrap-around to 64 bits. */
  function Wrap(x: int): int {
    WrapTo(x, TWO_64, TWO_63)
  }

  function WrapTo(x: int, m: int, half: int): int
    requires m > 0
  {
    (x + half) % m - half
  }

  lemma ModShift(x: int, k: int, m: int)
    requires m > 0
    ensures (x + k * m) % m == x % m
  {
    var q := x / m;
    assert x + k * m == (q + k) * m + x % m;
    DivModUnique(x + k * m, q + k, x % m, m);
  }

  lemma DivModUnique(x: int, q: int, r: int, m: int)
    requires m > 0 && x == q * m + r && 0 <= r < m
    ensures x % m == r
  {
    Apart(x / m, x % m, q, r, m);
    Apart(q, r, x / m, x % m, m);
  }

  lemma Apart(q1: int, r1: int, q2: int, r2: int, m: int)
    requires m > 0 && 0 <= r1 < m && 0 <= r2 < m
    ensures q1 > q2 ==> q1 * m + r1 > q2 * m + r2
  {
    if q1 > q2 {
      var k := q1 - q2 - 1;
      assert q1 * m == q2 * m + k * m + m;
      assert k * m >= 0;
    }
  }

  /** Wrapping the accumulator at each step is wrapping once at the end. */
  lemma WrapStep(a: int, d: int, m: int, half: int)
    requires m > 0
    ensures WrapTo(10 * WrapTo(a, m, half) + d, m, half) == WrapTo(10 * a + d, m, half)
  {
    var q := (a + half) / m;
    assert WrapTo(a, m, half) == a - q * m;
    assert 10 * (a - q * m) + d + half == 10 * a + d + half + (-10 * q) * m;
    ModShift(10 * a + d + half, -10 * q, m);
  }

  function DigitPrefix(s: string): (p: string)
    ensures AllDigits(p)
  {
    if s == "" || !IsDigit(s[0]) then "" else [s[0]] + DigitPrefix(s[1..])
  }

  /** The vCPUs a requirement text asks for. */
  function CpuOf(cpu: string): int {
    var n := Wrap(Value(DigitPrefix(cpu)));
    if n == 0 then 2 else n
  }

  lemma ValueSnoc(p: string, c: char)
    requires AllDigits(p) && IsDigit(c)
    ensures AllDigits(p + [c]) && Value(p + [c]) == 10 * Value(p) + (c as int - '0' as int)
  {
    assert (p + [c])[..|p|] == p;
  }

  /** The digits up to the first other character are the digit prefix. */
  lemma {:induction false} LongestPrefix(s: string, i: nat)
    requires i <= |s| && AllDigits(s[..i]) && (i == |s| || !IsDigit(s[i]))
    ensures DigitPrefix(s) == s[..i]
    decreases i
  {
    if i > 0 {
      assert s[..i][0] == s[0];
      var t := s[1..];
      assert t[..i - 1] == s[..i][1..];
      LongestPrefix(t, i - 1);
      assert s[..i] == [s[0]] + t[..i - 1];
    }
  }

  lemma AccumulatorStep(p: string, c: char)
    requires AllDigits(p) && IsDigit(c)
    ensures AllDigits(p + [c])
    ensures Wrap(10 * Wrap(Value(p)) + (c as int - '0' as int)) == Wrap(Value(p + [c]))
  {
    ValueSnoc(p, c);
    WrapStep(Value(p), c as int - '0' as int, TWO_64, TWO_63);
  }

  method ParseCpu(cpu: string) returns (n: int)
    ensures n == CpuOf(cpu)
  {
    if cpu == "" {
      assert Wrap(0) == 0;
      return 2;
    }
    n := 0;
    var i := 0;
    assert cpu[..0] == "";
    assert Wrap(0) == 0;
    while i < |cpu| && IsDigit(cpu[i])
      invariant 0 <= i <= |cpu| && AllDigits(cpu[..i])
      invariant n == Wrap(Value(cpu[..i]))
    {
      var d := cpu[i] as int - '0' as int;
      AccumulatorStep(cpu[..i], cpu[i]);
      assert cpu[..i + 1] == cpu[..i] + [cpu[i]];
      n := Wrap(10 * n + d);
      i := i + 1;
    }
    LongestPrefix(cpu, i);
    if n == 0 {
      return 2;
    }
  }

  /** The text asks for a positive number of vCPUs exactly when its leading digits, as a
      64-bit number, do not have the sign bit set. */
  lemma PositiveExactly(cpu: string)
    ensures CpuOf(cpu) > 0 <==> Value(DigitPrefix(cpu)) % TWO_64 < TWO_63
    ensures Value(DigitPrefix(cpu)) < TWO_63 ==>
            CpuOf(cpu) == if Value(DigitPrefix(cpu)) == 0 then 2 else Value(DigitPrefix(cpu))
  {
    WrapSign(Value(DigitPrefix(cpu)));
  }

  lemma WrapSign(v: nat)
    ensures Wrap(v) >= 0 <==> v % TWO_64 < TWO_63
    ensures v < TWO_63 ==> Wrap(v) == v
  {
    var q, r := v / TWO_64, v % TWO_64;
    assert v + TWO_63 == q * TWO_64 + (r + TWO_63);
    if r < TWO_63 {
      DivModUnique(v + TWO_63, q, r + TWO_63, TWO_64);
    } else {
      assert v + TWO_63 == (q + 1) * TWO_64 + (r - TWO_63);
      DivModUnique(v + TWO_63, q + 1, r - TWO_63, TWO_64);
    }
  }

  // ---------------------------------------------------------------- the requirement

  /** A workload's requirements; `memoryGb` is the parsed memory, 0 when unparsable. */
  datatype Spec = Spec(
    cpu: string, memoryGb: real, gpuRequired: bool, gpuCount: int, gpuModel: string, arch: string, confidential: bool)

  function RequirementsWith(spec: Spec, cpu: int): Requirements {
    Requirements(
      cpu,
      if spec.memoryGb > 0.0 then spec.memoryGb else 0.0,
      if !spec.gpuRequired then 0 else if spec.gpuCount == 0 then 1 else spec.gpuCount,
      if spec.gpuRequired then spec.gpuModel else "",
      spec.arch,
      spec.confidential)
  }

  function RequirementsOf(spec: Spec): Requirements {
    RequirementsWith(spec, CpuOf(spec.cpu))
  }

  // ---------------------------------------------------------------- the pick

  /** The row has what the workload asks for, field by field. */
  predicate Suits(inst: InstanceType, spec: Spec) {
    && (CpuOf(spec.cpu) > 0 ==> CpuOf(spec.cpu) <= inst.vcpus)
    && (spec.memoryGb > 0.0 ==> spec.memoryGb <= inst.memoryGb)
    && (spec.arch != "" ==> inst.arch == spec.arch)
    && inst.confidential == spec.confidential
    && (!spec.gpuRequired ==> inst.gpuCount <= 0)
    && (spec.gpuRequired && spec.gpuCount == 0 ==> 1 <= inst.gpuCount)
    && (spec.gpuRequired && spec.gpuCount > 0 ==> spec.gpuCount <= inst.gpuCount)
    && (spec.gpuRequired && spec.gpuModel != "" ==> EqualFold(inst.gpuModel, spec.gpuModel))
  }

  lemma SuitsExactly(inst: InstanceType, spec: Spec)
    requires Sized(inst)
    ensures Kept(inst, RequirementsOf(spec)) <==> Suits(inst, spec)
  {
    GuardsExact(inst, RequirementsOf(spec));
  }

  /** `r` is a cheapest row of the provider that the search keeps. */
  predicate IsPick(rows: seq<InstanceType>, provider: string, req: Requirements, r: InstanceType) {
    && r in rows && r.provider == provider && Kept(r, req)
    && forall x :: x in rows && x.provider == provider && Kept(x, req) ==> r.price <= x.price
  }

  /** What estimateFromCatalog bases its figure on: a cheapest satisfying row, or nothing
      exactly when there is none. */
  method Pick(rows: seq<InstanceType>, provider: string, spec: Spec) returns (r: Option<InstanceType>)
    ensures r.None? <==> forall x :: x in rows && x.provider == provider ==> !Kept(x, RequirementsOf(spec))
    ensures r.Some? ==> IsPick(rows, provider, RequirementsOf(spec), r.value)
    // For a catalog without negative sizes, on the fields of the workload alone.
    ensures (forall x :: x in rows ==> Sized(x)) ==>
              && (r.None? <==> forall x :: x in rows && x.provider == provider ==> !Suits(x, spec))
              && (r.Some? ==>
                    && r.value in rows && r.value.provider == provider && Suits(r.value, spec)
                    && forall x :: x in rows && x.provider == provider && Suits(x, spec) ==> r.value.price <= x.price)
  {
    forall x | x in rows && Sized(x) ensures Kept(x, RequirementsOf(spec)) <==> Suits(x, spec) {
      SuitsExactly(x, spec);
    }
    var cpu := ParseCpu(spec.cpu);
    var req := RequirementsWith(spec, cpu);
    var matches := FindCheapestForProvider(rows, provider, req);
    forall x ensures x in matches <==> x in rows && x.provider == provider && Kept(x, req) {
      assert x in matches <==> multiset(matches)[x] > 0;
      assert x in rows <==> multiset(rows)[x] > 0;
    }
    if matches == [] {
      return None;
    }
    assert forall x :: x in matches ==> matches[0].price <= x.price;
    return Some(matches[0]);
  }

  /** A picked row of a catalog without negative sizes meets every requirement, and no
      cheaper row does. */
  lemma PickIsCheapestSatisfying(rows: seq<InstanceType>, provider: string, req: Requirements, r: InstanceType)
    requires forall x :: x in rows ==> Sized(x)
    ensures IsPick(rows, provider, req, r) <==>
            && r in rows && r.provider == provider && Meets(r, req)
            && forall x :: x in rows && x.provider == provider && Meets(x, req) ==> r.price <= x.price
  {
    forall x | x in rows ensures Kept(x, req) <==> Meets(x, req) {
      GuardsExact(x, req);
    }
  }

  /** No catalog makes the pick a row of unknown vCPUs, exactly when the requirement text's
      leading digits do not overflow into the sign bit. */
  lemma KnownVcpusExactly(provider: string, spec: Spec)
    ensures (forall rows: seq<InstanceType>, r: InstanceType ::
               IsPick(rows, provider, RequirementsOf(spec), r) ==> r.vcpus != 0)
            <==> Value(DigitPrefix(spec.cpu)) % TWO_64 < TWO_63
  {
    PositiveExactly(spec.cpu);
    var req := RequirementsOf(spec);
    if req.minVcpus <= 0 {
      var r := InstanceType("", provider, 0, req.minMemoryGb, Max(req.gpuCount, 0), req.gpuModel, 0.0, 0.0, req.arch,
                            req.confidential);
      assert EqualFold(r.gpuModel, req.gpuModel);
      assert Kept(r, req);
      assert IsPick([r], provider, req, r);
    }
  }

  lemma {:induction false} AllDigitsPrefix(s: string)
    requires AllDigits(s)
    ensures DigitPrefix(s) == s
  {
    if s != "" {
      AllDigitsPrefix(s[1..]);
    }
  }

  /** Asking for 2^63 vCPUs is read as a negative number, which every size meets. */
  lemma OverflowIsNegative()
    ensures CpuOf(Itoa(TWO_63)) == -TWO_63
  {
    ItoaRoundTrip(TWO_63);
    AllDigitsPrefix(Itoa(TWO_63));
  }
}
