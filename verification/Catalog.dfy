/** Instance catalogs: selection by price, and the merge of live prices with built-in specs. */
module Catalog {
  import opened Common

  datatype InstanceType = InstanceType(
    name: string, provider: string, vcpus: int, memoryGb: real, gpuCount: int, gpuModel: string,
    price: real, spotPrice: real, arch: string, confidential: bool)

  datatype Requirements = Requirements(
    minVcpus: int, minMemoryGb: real, gpuCount: int, gpuModel: string, arch: string, confidential: bool)

  function Lower(c: char): char {
    if 'A' <= c <= 'Z' then (c as int + 32) as char else c
  }

  predicate EqualFold(a: string, b: string) {
    |a| == |b| && forall i :: 0 <= i < |a| ==> Lower(a[i]) == Lower(b[i])
  }

  /** Letter by letter, up to case. */
  lemma EqualFoldMeans(a: string, b: string)
    ensures EqualFold(a, b) <==>
            |a| == |b| && forall i :: 0 <= i < |a| ==>
              || a[i] == b[i]
              || ('a' <= a[i] <= 'z' && b[i] as int == a[i] as int - 32)
              || ('A' <= a[i] <= 'Z' && b[i] as int == a[i] as int + 32)
  {
  }

  // ---------------------------------------------------------------- one row

  /** What a requirement asks of a row, whatever its sizes. */
  predicate MeetsRest(inst: InstanceType, req: Requirements) {
    && (req.gpuCount > 0 ==> req.gpuCount <= inst.gpuCount)
    && (req.gpuCount == 0 ==> inst.gpuCount <= 0)
    && (req.gpuModel != "" ==> EqualFold(inst.gpuModel, req.gpuModel))
    && req.confidential == inst.confidential
    && (req.arch != "" ==> inst.arch == req.arch)
  }

  /** A row satisfies a requirement: at least the sizes asked for, and the rest. */
  predicate Meets(inst: InstanceType, req: Requirements) {
    && (req.minVcpus > 0 ==> req.minVcpus <= inst.vcpus)
    && (req.minMemoryGb > 0.0 ==> req.minMemoryGb <= inst.memoryGb)
    && MeetsRest(inst, req)
  }

  /** The loop's chain of guards, in order. */
  predicate Kept(inst: InstanceType, req: Requirements) {
    if req.minVcpus > 0 && inst.vcpus == 0 then false
    else if req.minMemoryGb > 0.0 && inst.memoryGb == 0.0 then false
    else if inst.vcpus > 0 && inst.vcpus < req.minVcpus then false
    else if inst.memoryGb > 0.0 && inst.memoryGb < req.minMemoryGb then false
    else if req.gpuCount > 0 && inst.gpuCount < req.gpuCount then false
    else if req.gpuCount == 0 && inst.gpuCount > 0 then false
    else if req.gpuModel != "" && !EqualFold(inst.gpuModel, req.gpuModel) then false
    else if req.confidential != inst.confidential then false
    else !(req.arch != "" && inst.arch != req.arch)
  }

  predicate Sized(inst: InstanceType) {
    inst.vcpus >= 0 && inst.memoryGb >= 0.0
  }

  /** The guards keep exactly the satisfying rows, except that a negative size passes. */
  lemma GuardsExact(inst: InstanceType, req: Requirements)
    ensures Kept(inst, req) <==>
            && MeetsRest(inst, req)
            && (req.minVcpus > 0 ==> req.minVcpus <= inst.vcpus || inst.vcpus < 0)
            && (req.minMemoryGb > 0.0 ==> req.minMemoryGb <= inst.memoryGb || inst.memoryGb < 0.0)
    ensures Sized(inst) ==> (Kept(inst, req) <==> Meets(inst, req))
  {
  }

  // ---------------------------------------------------------------- filtering and sorting

  function Filter(rows: seq<InstanceType>, p: InstanceType -> bool): (r: seq<InstanceType>)
    ensures forall i :: 0 <= i < |r| ==> r[i] in rows && p(r[i])
    ensures forall x :: x in rows && p(x) ==> x in r
  {
    if rows == [] then []
    else
      var n := |rows| - 1;
      Filter(rows[..n], p) + if p(rows[n]) then [rows[n]] else []
  }

  lemma FilterStep(rows: seq<InstanceType>, p: InstanceType -> bool, i: nat)
    requires i < |rows|
    ensures Filter(rows[..i + 1], p) == Filter(rows[..i], p) + if p(rows[i]) then [rows[i]] else []
  {
    assert rows[..i + 1][..i] == rows[..i];
  }

  /** How often a kept row occurs. */
  lemma {:induction false} FilterCounts(rows: seq<InstanceType>, p: InstanceType -> bool, x: InstanceType)
    ensures multiset(Filter(rows, p))[x] == if p(x) then multiset(rows)[x] else 0
  {
    if rows != [] {
      var n := |rows| - 1;
      FilterCounts(rows[..n], p, x);
      assert rows == rows[..n] + [rows[n]];
    }
  }

  lemma {:induction false} FilterNone(rows: seq<InstanceType>, p: InstanceType -> bool)
    requires forall x :: x in rows ==> !p(x)
    ensures Filter(rows, p) == []
  {
    if rows != [] {
      FilterNone(rows[..|rows| - 1], p);
    }
  }

  predicate Ascending(rows: seq<InstanceType>) {
    forall i, j :: 0 <= i < j < |rows| ==> rows[i].price <= rows[j].price
  }

  lemma InsertKeeps(r: seq<InstanceType>, k: nat, x: InstanceType)
    requires Ascending(r) && k <= |r|
    requires forall i :: 0 <= i < k ==> r[i].price <= x.price
    requires forall i :: k <= i < |r| ==> x.price < r[i].price
    ensures Ascending(r[..k] + [x] + r[k..])
    ensures multiset(r[..k] + [x] + r[k..]) == multiset(r) + multiset{x}
  {
    assert r == r[..k] + r[k..];
  }

  /** sort.Slice by price; the order of ties is not promised. */
  method SortByPrice(rows: seq<InstanceType>) returns (r: seq<InstanceType>)
    ensures multiset(r) == multiset(rows) && Ascending(r)
  {
    r := [];
    for i := 0 to |rows|
      invariant multiset(r) == multiset(rows[..i]) && Ascending(r)
    {
      var k := Position(r, rows[i].price);
      assert rows[..i + 1] == rows[..i] + [rows[i]];
      InsertKeeps(r, k, rows[i]);
      r := r[..k] + [rows[i]] + r[k..];
    }
    assert rows[..|rows|] == rows;
  }

  method Position(rows: seq<InstanceType>, price: real) returns (k: nat)
    requires Ascending(rows)
    ensures k <= |rows|
    ensures forall i :: 0 <= i < k ==> rows[i].price <= price
    ensures forall i :: k <= i < |rows| ==> price < rows[i].price
  {
    k := 0;
    while k < |rows| && rows[k].price <= price
      invariant k <= |rows| && forall i :: 0 <= i < k ==> rows[i].price <= price
    {
      k := k + 1;
    }
  }

  /** Exactly the kept rows, each as often as the catalog has it, in ascending price. */
  method FindCheapest(rows: seq<InstanceType>, req: Requirements) returns (r: seq<InstanceType>)
    ensures multiset(r) == multiset(Filter(rows, x => Kept(x, req))) && Ascending(r)
    ensures forall x :: multiset(r)[x] == if Kept(x, req) then multiset(rows)[x] else 0
  {
    var matches := [];
    ghost var kept := x => Kept(x, req);
    for i := 0 to |rows|
      invariant matches == Filter(rows[..i], kept)
    {
      FilterStep(rows, kept, i);
      var inst := rows[i];
      if req.minVcpus > 0 && inst.vcpus == 0 { continue; }
      if req.minMemoryGb > 0.0 && inst.memoryGb == 0.0 { continue; }
      if inst.vcpus > 0 && inst.vcpus < req.minVcpus { continue; }
      if inst.memoryGb > 0.0 && inst.memoryGb < req.minMemoryGb { continue; }
      if req.gpuCount > 0 && inst.gpuCount < req.gpuCount { continue; }
      if req.gpuCount == 0 && inst.gpuCount > 0 { continue; }
      if req.gpuModel != "" && !EqualFold(inst.gpuModel, req.gpuModel) { continue; }
      if req.confidential != inst.confidential { continue; }
      if req.arch != "" && inst.arch != req.arch { continue; }
      matches := matches + [inst];
    }
    assert rows[..|rows|] == rows;
    r := SortByPrice(matches);
    forall x ensures multiset(r)[x] == if Kept(x, req) then multiset(rows)[x] else 0 {
      FilterCounts(rows, kept, x);
    }
  }

  lemma {:induction false} FilterAscending(rows: seq<InstanceType>, p: InstanceType -> bool)
    requires Ascending(rows)
    ensures Ascending(Filter(rows, p))
  {
    if rows != [] {
      var n := |rows| - 1;
      FilterAscending(rows[..n], p);
      var r := Filter(rows[..n], p);
      forall i | 0 <= i < |r| ensures r[i].price <= rows[n].price {
        assert r[i] in rows[..n];
      }
    }
  }

  method FindCheapestForProvider(rows: seq<InstanceType>, provider: string, req: Requirements)
    returns (r: seq<InstanceType>)
    ensures Ascending(r)
    ensures forall x :: multiset(r)[x] == if x.provider == provider && Kept(x, req) then multiset(rows)[x] else 0
  {
    var all := FindCheapest(rows, req);
    ghost var p := (x: InstanceType) => x.provider == provider;
    r := [];
    for i := 0 to |all|
      invariant r == Filter(all[..i], p)
    {
      FilterStep(all, p, i);
      if all[i].provider == provider {
        r := r + [all[i]];
      }
    }
    assert all[..|all|] == all;
    FilterAscending(all, p);
    forall x ensures multiset(r)[x] == if x.provider == provider && Kept(x, req) then multiset(rows)[x] else 0 {
      FilterCounts(all, p, x);
    }
  }

  // ---------------------------------------------------------------- equal up to price ties

  /** The same prices, place by place. */
  predicate SamePrices(a: seq<InstanceType>, b: seq<InstanceType>) {
    |a| == |b| && forall i :: 0 <= i < |a| ==> a[i].price == b[i].price
  }

  function Without(rows: seq<InstanceType>, k: nat): seq<InstanceType>
    requires k < |rows|
  {
    rows[..k] + rows[k + 1..]
  }

  lemma WithoutOne(rows: seq<InstanceType>, k: nat)
    requires k < |rows|
    ensures multiset(Without(rows, k)) == multiset(rows) - multiset{rows[k]}
  {
    assert rows == rows[..k] + [rows[k]] + rows[k + 1..];
  }

  lemma WithoutAscends(rows: seq<InstanceType>, k: nat)
    requires k < |rows| && Ascending(rows)
    ensures Ascending(Without(rows, k))
  {
    var w := Without(rows, k);
    assert forall i :: 0 <= i < |w| ==> w[i] == rows[if i < k then i else i + 1];
  }

  /** Taking a row out of place `k` of an ascending list whose last price it has leaves
      the prices where they were. */
  lemma PlaceByPlace(a: seq<InstanceType>, b: seq<InstanceType>, k: nat)
    requires |a| == |b| && Ascending(b) && k < |b| && b[k] == a[|a| - 1] && b[|b| - 1].price <= a[|a| - 1].price
    requires SamePrices(a[..|a| - 1], Without(b, k))
    ensures SamePrices(a, b)
  {
    var n := |a| - 1;
    var c, d := a[..n], Without(b, k);
    forall i | 0 <= i < n ensures a[i].price == b[i].price {
      assert c[i].price == d[i].price;
      if i >= k {
        assert d[i] == b[i + 1];
      }
    }
  }

  /** Two ascending lists of the same rows have the same prices. */
  lemma {:induction false} AscendingUnique(a: seq<InstanceType>, b: seq<InstanceType>)
    requires Ascending(a) && Ascending(b) && multiset(a) == multiset(b)
    ensures SamePrices(a, b)
    decreases |a|
  {
    SameLength(a, b);
    if a != [] {
      var k := PlaceOfLast(a, b);
      AscendingUnique(a[..|a| - 1], Without(b, k));
      PlaceByPlace(a, b, k);
    }
  }

  /** Where the last row of one list stands in the other, which has no higher price. */
  lemma PlaceOfLast(a: seq<InstanceType>, b: seq<InstanceType>) returns (k: nat)
    requires Ascending(a) && Ascending(b) && multiset(a) == multiset(b) && |a| == |b| > 0
    ensures k < |b| && b[k] == a[|a| - 1] && b[|b| - 1].price <= a[|a| - 1].price
    ensures multiset(a[..|a| - 1]) == multiset(Without(b, k)) && Ascending(a[..|a| - 1]) && Ascending(Without(b, k))
  {
    var n := |a| - 1;
    k := PlaceIn(b, a[n]);
    WithoutSame(a, b, n, k);
    assert Without(a, n) == a[..n];
    LastIsHighest(a, b[n]);
  }

  lemma PlaceIn(b: seq<InstanceType>, x: InstanceType) returns (k: nat)
    requires x in multiset(b)
    ensures k < |b| && b[k] == x
  {
    assert x in b;
    k :| k < |b| && b[k] == x;
  }

  lemma WithoutSame(a: seq<InstanceType>, b: seq<InstanceType>, i: nat, k: nat)
    requires Ascending(a) && Ascending(b) && multiset(a) == multiset(b) && i < |a| && k < |b| && a[i] == b[k]
    ensures multiset(Without(a, i)) == multiset(Without(b, k)) && Ascending(Without(a, i)) && Ascending(Without(b, k))
  {
    WithoutOne(a, i);
    WithoutOne(b, k);
    WithoutAscends(a, i);
    WithoutAscends(b, k);
  }

  lemma LastIsHighest(a: seq<InstanceType>, x: InstanceType)
    requires Ascending(a) && x in multiset(a)
    ensures a != [] && x.price <= a[|a| - 1].price
  {
    var i := PlaceIn(a, x);
  }

  lemma SameLength(a: seq<InstanceType>, b: seq<InstanceType>)
    requires multiset(a) == multiset(b)
    ensures |a| == |b|
  {
    assert |multiset(a)| == |a| && |multiset(b)| == |b|;
  }

  /** A provider search agrees with a search of the provider's own catalog, up to the
      order of rows with equal price. */
  method ProviderSearchAgrees(rows: seq<InstanceType>, provider: string, req: Requirements)
    returns (r: seq<InstanceType>, s: seq<InstanceType>)
    ensures multiset(r) == multiset(s) && SamePrices(r, s)
  {
    r := FindCheapestForProvider(rows, provider, req);
    var p := (x: InstanceType) => x.provider == provider;
    var own := Filter(rows, p);
    s := FindCheapest(own, req);
    forall x ensures multiset(r)[x] == multiset(s)[x] {
      FilterCounts(rows, p, x);
    }
    AscendingUnique(r, s);
  }

  // ---------------------------------------------------------------- live prices

  function Key(row: InstanceType): string {
    row.provider + "/" + row.name
  }

  /** The last row of the table under a key. */
  function Lookup(table: seq<InstanceType>, key: string): Option<InstanceType> {
    if table == [] then None
    else if Key(table[|table| - 1]) == key then Some(table[|table| - 1])
    else Lookup(table[..|table| - 1], key)
  }

  function EnrichOne(row: InstanceType, table: seq<InstanceType>): InstanceType {
    if row.vcpus != 0 || row.memoryGb != 0.0 then row
    else
      match Lookup(table, Key(row))
      case None => row
      case Some(s) => row.(vcpus := s.vcpus, memoryGb := s.memoryGb, gpuCount := s.gpuCount, gpuModel := s.gpuModel,
                           confidential := s.confidential, arch := if row.arch == "" then s.arch else row.arch)
  }

  function Enriched(rows: seq<InstanceType>, table: seq<InstanceType>): (r: seq<InstanceType>)
    ensures |r| == |rows| && forall i :: 0 <= i < |r| ==> r[i] == EnrichOne(rows[i], table)
  {
    seq(|rows|, i requires 0 <= i < |rows| => EnrichOne(rows[i], table))
  }

  /** The map answers for this key as the table does. */
  predicate Holds(specs: map<string, InstanceType>, table: seq<InstanceType>, k: string) {
    Lookup(table, k) == if k in specs then Some(specs[k]) else None
  }

  lemma HoldsOn(specs: map<string, InstanceType>, rows: seq<InstanceType>, x: InstanceType,
                more: map<string, InstanceType>)
    requires (forall k: string :: Holds(specs, rows, k)) && more == specs[Key(x) := x]
    ensures forall k: string :: Holds(more, rows + [x], k)
  {
    var all := rows + [x];
    forall k: string ensures Holds(more, all, k) {
      assert Holds(specs, rows, k);
      assert all[..|all| - 1] == rows;
    }
  }

  method SpecsByKey(table: seq<InstanceType>) returns (specs: map<string, InstanceType>)
    ensures forall k: string :: Holds(specs, table, k)
  {
    specs := map[];
    for i := 0 to |table|
      invariant forall k: string :: Holds(specs, table[..i], k)
    {
      HoldsOn(specs, table[..i], table[i], specs[Key(table[i]) := table[i]]);
      assert table[..i] + [table[i]] == table[..i + 1];
      specs := specs[Key(table[i]) := table[i]];
    }
    assert table[..|table|] == table;
  }

  method EnrichSpecs(rows: array<InstanceType>, table: seq<InstanceType>)
    modifies rows
    ensures rows[..] == Enriched(old(rows[..]), table)
  {
    var specs := SpecsByKey(table);
    for i := 0 to rows.Length
      invariant forall k :: 0 <= k < i ==> rows[k] == EnrichOne(old(rows[..])[k], table)
      invariant forall k :: i <= k < rows.Length ==> rows[k] == old(rows[..])[k]
    {
      var row := rows[i];
      if row.vcpus != 0 || row.memoryGb != 0.0 {
        continue;
      }
      if Key(row) !in specs {
        assert Holds(specs, table, Key(row));
        assert EnrichOne(row, table) == row;
        continue;
      }
      var s := specs[Key(row)];
      assert Holds(specs, table, Key(row));
      assert Lookup(table, Key(row)) == Some(s);
      rows[i] := row.(vcpus := s.vcpus, memoryGb := s.memoryGb, gpuCount := s.gpuCount, gpuModel := s.gpuModel,
                      confidential := s.confidential);
      if row.arch == "" {
        rows[i] := rows[i].(arch := s.arch);
      }
    }
  }

  /** Enriching keeps every row's identity and prices, fills in only rows without sizes,
      and does nothing the second time. */
  lemma EnrichKeepsPrices(rows: seq<InstanceType>, table: seq<InstanceType>)
    ensures Enriched(Enriched(rows, table), table) == Enriched(rows, table)
    ensures forall i :: 0 <= i < |rows| ==>
              var e := Enriched(rows, table)[i];
              e.name == rows[i].name && e.provider == rows[i].provider && e.price == rows[i].price
              && e.spotPrice == rows[i].spotPrice
              && (rows[i].arch != "" ==> e.arch == rows[i].arch)
              && (rows[i].vcpus != 0 || rows[i].memoryGb != 0.0 ==> e == rows[i])
  {
    forall i | 0 <= i < |rows| ensures EnrichOne(Enriched(rows, table)[i], table) == Enriched(rows, table)[i] {
      assert Key(EnrichOne(rows[i], table)) == Key(rows[i]);
    }
  }

  /** What enriching fills in, by the table alone: a row without sizes takes those of the last
      table row of its provider and name, and its kind; without such a row it stays. */
  lemma EnrichFills(row: InstanceType, table: seq<InstanceType>)
    requires row.vcpus == 0 && row.memoryGb == 0.0
    ensures forall i :: IsLastSku(table, i, row) ==>
              var e, s := EnrichOne(row, table), table[i];
              && e.vcpus == s.vcpus && e.memoryGb == s.memoryGb && e.gpuCount == s.gpuCount && e.gpuModel == s.gpuModel
              && e.confidential == s.confidential && (row.arch == "" ==> e.arch == s.arch)
    ensures (forall i :: 0 <= i < |table| ==> !SameSku(table[i], row)) ==> EnrichOne(row, table) == row
  {
    forall i: nat | IsLastSku(table, i, row) ensures Lookup(table, Key(row)) == Some(table[i]) {
      LookupAt(table, Key(row), i);
    }
    if forall i :: 0 <= i < |table| ==> !SameSku(table[i], row) {
      LookupNone(table, Key(row));
    }
  }

  /** Position `i` is the last of the table with this row's provider and name. */
  predicate IsLastSku(table: seq<InstanceType>, i: int, row: InstanceType) {
    && 0 <= i < |table| && SameSku(table[i], row)
    && forall j :: i < j < |table| ==> !SameSku(table[j], row)
  }

  predicate SameSku(a: InstanceType, b: InstanceType) {
    a.provider + "/" + a.name == b.provider + "/" + b.name
  }

  lemma {:induction false} LookupAt(table: seq<InstanceType>, key: string, i: nat)
    requires i < |table| && Key(table[i]) == key && forall j :: i < j < |table| ==> Key(table[j]) != key
    ensures Lookup(table, key) == Some(table[i])
    decreases |table|
  {
    if i < |table| - 1 {
      LookupAt(table[..|table| - 1], key, i);
    }
  }

  lemma {:induction false} LookupNone(table: seq<InstanceType>, key: string)
    requires forall i :: 0 <= i < |table| ==> Key(table[i]) != key
    ensures Lookup(table, key) == None
    decreases |table|
  {
    if table != [] {
      LookupNone(table[..|table| - 1], key);
    }
  }

  predicate HasGpu(rows: seq<InstanceType>, provider: string) {
    exists i :: 0 <= i < |rows| && rows[i].provider == provider && rows[i].gpuCount > 0
  }

  predicate HasConfidential(rows: seq<InstanceType>, provider: string) {
    exists i :: 0 <= i < |rows| && rows[i].provider == provider && rows[i].confidential
  }

  /** A table row that seeding adds: its provider was fetched and its feed has no row of
      this kind. */
  predicate Seeded(rows: seq<InstanceType>, fetched: set<string>, s: InstanceType) {
    s.provider in fetched &&
    ((s.gpuCount > 0 && !HasGpu(rows, s.provider)) || (s.confidential && !HasConfidential(rows, s.provider)))
  }

  method SeedStatic(rows: seq<InstanceType>, fetched: set<string>, table: seq<InstanceType>)
    returns (r: seq<InstanceType>)
    ensures r == rows + Filter(table, s => Seeded(rows, fetched, s))
  {
    var hasGpu: set<string>, hasConfidential: set<string> := {}, {};
    for i := 0 to |rows|
      invariant forall p: string :: p in hasGpu <==> HasGpu(rows[..i], p)
      invariant forall p: string :: p in hasConfidential <==> HasConfidential(rows[..i], p)
    {
      KindsStep(rows, i);
      if rows[i].gpuCount > 0 {
        hasGpu := hasGpu + {rows[i].provider};
      }
      if rows[i].confidential {
        hasConfidential := hasConfidential + {rows[i].provider};
      }
    }
    assert rows[..|rows|] == rows;
    r := rows;
    ghost var seeded := s => Seeded(rows, fetched, s);
    for i := 0 to |table|
      invariant r == rows + Filter(table[..i], seeded)
    {
      FilterStep(table, seeded, i);
      var inst := table[i];
      if inst.provider !in fetched {
        continue;
      }
      if inst.gpuCount > 0 && inst.provider !in hasGpu {
        r := r + [inst];
      } else if inst.confidential && inst.provider !in hasConfidential {
        r := r + [inst];
      }
    }
    assert table[..|table|] == table;
  }

  lemma KindsStep(rows: seq<InstanceType>, i: nat)
    requires i < |rows|
    ensures forall p: string :: HasGpu(rows[..i + 1], p) <==>
            HasGpu(rows[..i], p) || (rows[i].provider == p && rows[i].gpuCount > 0)
    ensures forall p: string :: HasConfidential(rows[..i + 1], p) <==>
            HasConfidential(rows[..i], p) || (rows[i].provider == p && rows[i].confidential)
  {
    var a, b := rows[..i], rows[..i + 1];
    assert b == a + [rows[i]];
    forall p: string
      ensures HasGpu(b, p) <==> HasGpu(a, p) || (rows[i].provider == p && rows[i].gpuCount > 0)
      ensures HasConfidential(b, p) <==> HasConfidential(a, p) || (rows[i].provider == p && rows[i].confidential)
    {
      assert b[i] == rows[i];
      if HasGpu(a, p) {
        var k :| 0 <= k < |a| && a[k].provider == p && a[k].gpuCount > 0;
        assert b[k] == a[k];
      }
      if HasConfidential(a, p) {
        var k :| 0 <= k < |a| && a[k].provider == p && a[k].confidential;
        assert b[k] == a[k];
      }
    }
  }

  /** Seeding twice is seeding once. */
  lemma SeedingIdempotent(rows: seq<InstanceType>, fetched: set<string>, table: seq<InstanceType>)
    ensures var once := rows + Filter(table, s => Seeded(rows, fetched, s));
            once + Filter(table, s => Seeded(once, fetched, s)) == once
  {
    var seeded := s => Seeded(rows, fetched, s);
    var added := Filter(table, seeded);
    var once := rows + added;
    var again := s => Seeded(once, fetched, s);
    forall x | x in table ensures !again(x) {
      assert forall k :: 0 <= k < |rows| ==> once[k] == rows[k];
      if seeded(x) {
        var k :| 0 <= k < |added| && added[k] == x;
        assert once[|rows| + k] == x;
      } else if HasGpu(rows, x.provider) {
        assert HasGpu(once, x.provider);
      }
    }
    FilterNone(table, again);
  }

  lemma GpuMember(rows: seq<InstanceType>, provider: string)
    ensures HasGpu(rows, provider) <==> exists x :: x in rows && x.provider == provider && x.gpuCount > 0
  {
  }

  lemma ConfidentialMember(rows: seq<InstanceType>, provider: string)
    ensures HasConfidential(rows, provider) <==> exists x :: x in rows && x.provider == provider && x.confidential
  {
  }

  /** What seeding is for: afterwards a fetched provider has rows of a kind if and only if
      its feed or the table has, and any other provider has the rows it had. */
  lemma SeedingCompletes(rows: seq<InstanceType>, fetched: set<string>, table: seq<InstanceType>, provider: string)
    ensures var seeded := rows + Filter(table, s => Seeded(rows, fetched, s));
            if provider in fetched then
              && (HasGpu(seeded, provider) <==> HasGpu(rows, provider) || HasGpu(table, provider))
              && (HasConfidential(seeded, provider) <==>
                  HasConfidential(rows, provider) || HasConfidential(table, provider))
            else
              forall x: InstanceType :: x.provider == provider ==> multiset(seeded)[x] == multiset(rows)[x]
  {
    var added := Filter(table, s => Seeded(rows, fetched, s));
    var seeded := rows + added;
    if provider in fetched {
      SeededGpu(rows, fetched, table, added, provider);
      SeededConfidential(rows, fetched, table, added, provider);
    } else {
      forall x: InstanceType | x.provider == provider ensures multiset(seeded)[x] == multiset(rows)[x] {
        FilterCounts(table, s => Seeded(rows, fetched, s), x);
      }
    }
  }

  lemma SeededGpu(rows: seq<InstanceType>, fetched: set<string>, table: seq<InstanceType>, added: seq<InstanceType>,
                  provider: string)
    requires provider in fetched && added == Filter(table, s => Seeded(rows, fetched, s))
    ensures HasGpu(rows + added, provider) <==> HasGpu(rows, provider) || HasGpu(table, provider)
  {
    GpuMember(rows, provider);
    GpuMember(table, provider);
    GpuMember(rows + added, provider);
    assert forall x :: x in rows + added <==> x in rows || x in added;
    if !HasGpu(rows, provider) && HasGpu(table, provider) {
      var x :| x in table && x.provider == provider && x.gpuCount > 0;
      assert x in added;
    }
  }

  lemma SeededConfidential(rows: seq<InstanceType>, fetched: set<string>, table: seq<InstanceType>,
                           added: seq<InstanceType>, provider: string)
    requires provider in fetched && added == Filter(table, s => Seeded(rows, fetched, s))
    ensures HasConfidential(rows + added, provider) <==>
            HasConfidential(rows, provider) || HasConfidential(table, provider)
  {
    ConfidentialMember(rows, provider);
    ConfidentialMember(table, provider);
    ConfidentialMember(rows + added, provider);
    assert forall x :: x in rows + added <==> x in rows || x in added;
    if !HasConfidential(rows, provider) && HasConfidential(table, provider) {
      var x :| x in table && x.provider == provider && x.confidential;
      assert x in added;
    }
  }

  // ---------------------------------------------------------------- the merged catalog

  datatype Fetched = Fetched(provider: string, answer: Result<seq<InstanceType>, string>)

  predicate Answered(f: Fetched) {
    f.answer.Ok? && f.answer.value != []
  }

  function LiveRows(results: seq<Fetched>): seq<InstanceType> {
    if results == [] then []
    else
      var last := results[|results| - 1];
      LiveRows(results[..|results| - 1]) + if Answered(last) then last.answer.value else []
  }

  /** The providers of answering fetchers. */
  function Answering(results: seq<Fetched>): set<string> {
    if results == [] then {}
    else
      var last := results[|results| - 1];
      Answering(results[..|results| - 1]) + if Answered(last) then {last.provider} else {}
  }

  /** The providers of the others, in order. */
  function Silent(results: seq<Fetched>): seq<string> {
    if results == [] then []
    else
      var last := results[|results| - 1];
      Silent(results[..|results| - 1]) + if Answered(last) then [] else [last.provider]
  }

  predicate GivesRows(answer: Result<seq<InstanceType>, string>) {
    answer.Ok? && |answer.value| > 0
  }

  lemma {:induction false} LiveRowsConcat(a: seq<Fetched>, b: seq<Fetched>)
    ensures LiveRows(a + b) == LiveRows(a) + LiveRows(b)
    decreases |b|
  {
    if b == [] {
      assert a + b == a;
    } else {
      assert (a + b)[..|a + b| - 1] == a + b[..|b| - 1];
      LiveRowsConcat(a, b[..|b| - 1]);
    }
  }

  /** The live rows are the answers one after the other: each whole, in its place, and nothing
      besides. */
  lemma LiveRowsExactly(a: seq<Fetched>, r: Fetched, b: seq<Fetched>)
    ensures LiveRows(a + [r] + b) == LiveRows(a) + (if r.answer.Ok? then r.answer.value else []) + LiveRows(b)
    ensures LiveRows([]) == []
  {
    LiveRowsOfOne(r);
    LiveRowsConcat(a, [r]);
    LiveRowsConcat(a + [r], b);
  }

  lemma LiveRowsOfOne(r: Fetched)
    ensures LiveRows([r]) == if r.answer.Ok? then r.answer.value else []
  {
    assert [r][..0] == [];
    assert LiveRows([r]) == [] + if Answered(r) then r.answer.value else [];
  }

  /** Every provider whose fetch gave rows is answering, every one whose fetch did not is
      reported, and nobody else. */
  lemma {:induction false} AnsweringExactly(results: seq<Fetched>, p: string)
    ensures p in Answering(results) <==>
            exists k :: 0 <= k < |results| && results[k].provider == p && GivesRows(results[k].answer)
    ensures p in Silent(results) <==>
            exists k :: 0 <= k < |results| && results[k].provider == p && !GivesRows(results[k].answer)
  {
    if results != [] {
      var n := |results| - 1;
      AnsweringExactly(results[..n], p);
      assert forall k :: 0 <= k < n ==> results[..n][k] == results[k];
    }
  }

  /** The live rows of all answering fetchers, in order; who answered, and who was skipped. */
  method Merge(results: seq<Fetched>) returns (live: seq<InstanceType>, fetched: set<string>, skipped: seq<string>)
    ensures live == LiveRows(results) && fetched == Answering(results) && skipped == Silent(results)
  {
    live, fetched, skipped := [], {}, [];
    for i := 0 to |results|
      invariant live == LiveRows(results[..i]) && fetched == Answering(results[..i]) && skipped == Silent(results[..i])
    {
      assert results[..i + 1][..i] == results[..i];
      var r := results[i];
      if r.answer.Err? || r.answer.value == [] {
        skipped := skipped + [r.provider];
      } else {
        fetched := fetched + {r.provider};
        live := live + r.answer.value;
      }
    }
    assert results[..|results|] == results;
  }

  /** The merged catalog is every live row, in order and at its live price, and then exactly
      the table rows that the enriched feeds of the answering providers lack. */
  method LiveCatalog(results: seq<Fetched>, table: seq<InstanceType>)
    returns (rows: seq<InstanceType>, skipped: seq<string>)
    ensures var enriched := Enriched(LiveRows(results), table);
            rows == enriched + Filter(table, s => Seeded(enriched, Answering(results), s))
    ensures forall i :: 0 <= i < |LiveRows(results)| ==> i < |rows| && rows[i].price == LiveRows(results)[i].price
    ensures skipped == Silent(results)
  {
    var live, fetched;
    live, fetched, skipped := Merge(results);
    var a := new InstanceType[|live|](i requires 0 <= i < |live| => live[i]);
    assert a[..] == live;
    EnrichSpecs(a, table);
    EnrichKeepsPrices(live, table);
    rows := SeedStatic(a[..], fetched, table);
  }
}
