/** Sorting the names of environment variables, as sort.Strings does. */
module KeyOrder {

  /** Strict lexicographic order. */
  predicate Before(a: string, b: string) {
    b != "" && (a == "" || a[0] < b[0] || (a[0] == b[0] && Before(a[1..], b[1..])))
  }

  lemma {:induction false} Total(a: string, b: string)
    ensures Before(a, b) || a == b || Before(b, a)
    ensures !(Before(a, b) && Before(b, a)) && !Before(a, a)
  {
    if a != "" && b != "" && a[0] == b[0] {
      Total(a[1..], b[1..]);
      if a[1..] == b[1..] {
        assert a == [a[0]] + a[1..] && b == [b[0]] + b[1..];
      }
    }
    if a != "" {
      Total(a[1..], a[1..]);
    }
  }

  lemma {:induction false} Transitive(a: string, b: string, c: string)
    requires Before(a, b) && Before(b, c)
    ensures Before(a, c)
  {
    if a != "" && a[0] == b[0] && b[0] == c[0] {
      Transitive(a[1..], b[1..], c[1..]);
    }
  }

  predicate Ascending(keys: seq<string>) {
    forall i, j :: 0 <= i < j < |keys| ==> Before(keys[i], keys[j])
  }

  /** Where `k` belongs in an ascending list without it. */
  method Position(keys: seq<string>, k: string) returns (n: nat)
    requires Ascending(keys) && k !in keys
    ensures n <= |keys|
    ensures forall i :: 0 <= i < n ==> Before(keys[i], k)
    ensures forall i :: n <= i < |keys| ==> Before(k, keys[i])
  {
    n := 0;
    while n < |keys| && Before(keys[n], k)
      invariant n <= |keys| && forall i :: 0 <= i < n ==> Before(keys[i], k)
    {
      n := n + 1;
    }
    if n < |keys| {
      Total(keys[n], k);
      forall i | n <= i < |keys| ensures Before(k, keys[i]) {
        if i > n {
          Transitive(k, keys[n], keys[i]);
        }
      }
    }
  }

  method Sort(names: set<string>) returns (keys: seq<string>)
    ensures Ascending(keys) && forall k :: k in keys <==> k in names
  {
    keys := [];
    var todo := names;
    while todo != {}
      invariant todo <= names && Ascending(keys)
      invariant forall k :: k in keys <==> k in names && k !in todo
      decreases todo
    {
      var k :| k in todo;
      todo := todo - {k};
      var n := Position(keys, k);
      Inserted(keys, n, k);
      keys := keys[..n] + [k] + keys[n..];
    }
  }

  lemma Inserted(keys: seq<string>, n: nat, k: string)
    requires Ascending(keys) && n <= |keys|
    requires forall i :: 0 <= i < n ==> Before(keys[i], k)
    requires forall i :: n <= i < |keys| ==> Before(k, keys[i])
    ensures Ascending(keys[..n] + [k] + keys[n..])
    ensures forall x :: x in keys[..n] + [k] + keys[n..] <==> x == k || x in keys
  {
    assert keys == keys[..n] + keys[n..];
  }

  lemma AscendingDistinct(keys: seq<string>, i: nat, j: nat)
    requires Ascending(keys) && i < j < |keys|
    ensures keys[i] != keys[j]
  {
    Total(keys[i], keys[j]);
  }

  /** There is one ascending list of a set of names. */
  lemma {:induction false} AscendingUnique(a: seq<string>, b: seq<string>)
    requires Ascending(a) && Ascending(b) && forall k :: k in a <==> k in b
    ensures a == b
    decreases |a|
  {
    EmptyTogether(a, b);
    if a != [] {
      assert a[0] in b && b[0] in a;
      SameFirst(a, b);
      forall k ensures k in a[1..] <==> k in b[1..] {
        WithoutFirst(a, k);
        WithoutFirst(b, k);
      }
      AscendingUnique(a[1..], b[1..]);
      assert a == [a[0]] + a[1..] && b == [b[0]] + b[1..];
    }
  }

  lemma EmptyTogether(a: seq<string>, b: seq<string>)
    requires forall k :: k in a <==> k in b
    ensures a == [] <==> b == []
  {
    assert a != [] ==> a[0] in a;
    assert b != [] ==> b[0] in b;
  }

  lemma SameFirst(a: seq<string>, b: seq<string>)
    requires Ascending(a) && Ascending(b) && a != [] && b != [] && a[0] in b && b[0] in a
    ensures a[0] == b[0]
  {
    Total(a[0], b[0]);
  }

  lemma WithoutFirst(a: seq<string>, k: string)
    requires Ascending(a) && a != []
    ensures k in a[1..] <==> k in a && k != a[0]
  {
    assert a == [a[0]] + a[1..];
    if k in a[1..] {
      var i :| 0 <= i < |a[1..]| && a[1..][i] == k;
      AscendingDistinct(a, 0, i + 1);
    }
  }
}
