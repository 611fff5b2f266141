/** Which source trees share a build key: the canonical form of a tree. */
module BuildTree {
  import opened Common
  import opened BuildKey

  // ---- Well-formed trees ------------------------------------------------------------------

  /** What a file system accepts as a name: not empty, no slash, not ".". */
  predicate ValidName(name: Bytes) {
    name != [] && 47 !in name && name != [46]
  }

  function Names(ns: seq<Node>): set<Bytes> {
    set n | n in ns :: n.name
  }

  /** Valid names everywhere, and no two siblings of the same name. */
  predicate GoodNames(ns: seq<Node>)
    decreases ns
  {
    ns == [] ||
    (ValidName(ns[0].name) && ns[0].name !in Names(ns[1..]) && (ns[0].Dir? ==> GoodNames(ns[0].children)) &&
     GoodNames(ns[1..]))
  }

  predicate GoodTree(t: Node) {
    t.Dir? ==> GoodNames(t.children)
  }

  // ---- The canonical form -----------------------------------------------------------------

  /** Without skipped directories, directories that hold no entry, and directory modes. */
  function CanonNode(n: Node): seq<Node>
    decreases n, 1
  {
    if n.File? then [n]
    else if Skipped(n) || CanonAll(n.children) == [] then []
    else [Dir(n.name, 0, CanonAll(n.children))]
  }

  function CanonAll(ns: seq<Node>): seq<Node>
    decreases ns, 0
  {
    if ns == [] then [] else CanonNode(ns[0]) + CanonAll(ns[1..])
  }

  /** The canonical tree: the root's name and mode do not matter, except that a skipped root
      holds nothing. */
  function Canon(t: Node): Node {
    if t.File? then File([], t.mode, t.body)
    else Dir([], 0, if Skipped(t) then [] else CanonAll(t.children))
  }

  /** A canonical forest: siblings of different valid names, no empty directory, no modes of
      directories. */
  predicate Tidy(ns: seq<Node>)
    decreases ns
  {
    ns == [] ||
    (ValidName(ns[0].name) && ns[0].name !in Names(ns[1..]) &&
     (ns[0].Dir? ==> ns[0].mode == 0 && ns[0].children != [] && Tidy(ns[0].children)) && Tidy(ns[1..]))
  }

  lemma {:induction false} CanonNames(ns: seq<Node>)
    ensures Names(CanonAll(ns)) <= Names(ns)
    decreases |ns|
  {
    if ns != [] {
      CanonNames(ns[1..]);
      assert forall n :: n in CanonNode(ns[0]) ==> n.name == ns[0].name;
      assert ns == [ns[0]] + ns[1..];
      forall x | x in Names(CanonAll(ns)) ensures x in Names(ns) {
        var n :| n in CanonAll(ns) && n.name == x;
        if n in CanonNode(ns[0]) {
          assert ns[0] in ns;
        } else {
          assert x in Names(ns[1..]);
          var m :| m in ns[1..] && m.name == x;
          assert m in ns;
        }
      }
    }
  }

  lemma {:induction false} CanonIsTidy(ns: seq<Node>)
    requires GoodNames(ns)
    ensures Tidy(CanonAll(ns))
    decreases ns
  {
    if ns != [] {
      var rest := CanonAll(ns[1..]);
      CanonIsTidy(ns[1..]);
      CanonNames(ns[1..]);
      if ns[0].Dir? {
        CanonIsTidy(ns[0].children);
      }
      var head := CanonNode(ns[0]);
      if head == [] {
        assert CanonAll(ns) == rest;
      } else {
        assert head + rest == [head[0]] + rest && ([head[0]] + rest)[1..] == rest;
      }
    }
  }

  // ---- Leaves: entries with their paths taken apart ----------------------------------------

  datatype Leaf = Leaf(parts: seq<Bytes>, mode: nat, body: Bytes)

  function Leaves(parts: seq<Bytes>, n: Node): seq<Leaf>
    decreases n, 1
  {
    if n.File? then [Leaf(parts, n.mode, n.body)] else LeavesAll(parts, n.children)
  }

  function LeavesAll(parent: seq<Bytes>, ns: seq<Node>): seq<Leaf>
    decreases ns, 0
  {
    if ns == [] then [] else Leaves(parent + [ns[0].name], ns[0]) + LeavesAll(parent, ns[1..])
  }

  /** The path text of a list of names. */
  function Path(parts: seq<Bytes>): Bytes {
    if parts == [] then [46]
    else if |parts| == 1 then parts[0]
    else parts[0] + [47] + Path(parts[1..])
  }

  function Rel(parts: seq<Bytes>): Option<Bytes> {
    if parts == [] then None else Some(Path(parts))
  }

  function Render(leaves: seq<Leaf>): (es: seq<Entry>)
    ensures |es| == |leaves|
    ensures forall i :: 0 <= i < |es| ==> es[i] == Entry(Path(leaves[i].parts), leaves[i].mode, leaves[i].body)
  {
    seq(|leaves|, i requires 0 <= i < |leaves| => Entry(Path(leaves[i].parts), leaves[i].mode, leaves[i].body))
  }

  lemma {:induction false} PathSnoc(parts: seq<Bytes>, name: Bytes)
    ensures Join(Rel(parts), name) == Rel(parts + [name])
    decreases |parts|
  {
    var all := parts + [name];
    if |parts| == 1 {
      assert all[1..] == [name] && all[0] == parts[0] && Path([name]) == name;
    } else if |parts| > 1 {
      assert all[1..] == parts[1..] + [name];
      PathSnoc(parts[1..], name);
      assert parts[0] + [47] + (Path(parts[1..]) + [47] + name) == parts[0] + [47] + Path(parts[1..]) + [47] + name;
    }
  }

  lemma RenderConcat(a: seq<Leaf>, b: seq<Leaf>)
    ensures Render(a + b) == Render(a) + Render(b)
  {
  }

  /** The walk of a node meets the leaves of its canonical form, in order. */
  lemma {:induction false} WalkIsLeaves(parts: seq<Bytes>, n: Node)
    ensures Walk(Rel(parts), n) == Render(if n.File? then Leaves(parts, n)
                                          else if Skipped(n) then []
                                          else LeavesAll(parts, CanonAll(n.children)))
    decreases n, 1
  {
    if n.Dir? && !Skipped(n) {
      WalkAllIsLeaves(parts, n.children);
    }
  }

  lemma {:induction false} WalkAllIsLeaves(parent: seq<Bytes>, ns: seq<Node>)
    ensures WalkAll(Rel(parent), ns) == Render(LeavesAll(parent, CanonAll(ns)))
    decreases ns, 0
  {
    if ns != [] {
      var n, parts := ns[0], parent + [ns[0].name];
      PathSnoc(parent, n.name);
      WalkIsLeaves(parts, n);
      WalkAllIsLeaves(parent, ns[1..]);
      HeadLeaves(parent, n);
      LeavesConcat(parent, CanonNode(n), CanonAll(ns[1..]));
      RenderConcat(LeavesAll(parent, CanonNode(n)), LeavesAll(parent, CanonAll(ns[1..])));
    }
  }

  lemma HeadLeaves(parent: seq<Bytes>, n: Node)
    ensures LeavesAll(parent, CanonNode(n)) ==
            if n.File? then Leaves(parent + [n.name], n)
            else if Skipped(n) then []
            else LeavesAll(parent + [n.name], CanonAll(n.children))
  {
    var c := CanonNode(n);
    if c != [] {
      assert c[1..] == [];
      assert LeavesAll(parent, c) == Leaves(parent + [c[0].name], c[0]) + [];
    }
  }

  lemma {:induction false} LeavesConcat(parent: seq<Bytes>, a: seq<Node>, b: seq<Node>)
    ensures LeavesAll(parent, a + b) == LeavesAll(parent, a) + LeavesAll(parent, b)
    decreases |a|
  {
    if a == [] {
      assert a + b == b;
    } else {
      assert (a + b)[1..] == a[1..] + b;
      LeavesConcat(parent, a[1..], b);
    }
  }

  // ---- Paths determine their names ----------------------------------------------------------

  ghost predicate ValidParts(parts: seq<Bytes>) {
    forall i :: 0 <= i < |parts| ==> ValidName(parts[i])
  }

  /** The pieces of a text between slashes, the first of which starts with `piece`. */
  function Split(piece: Bytes, s: Bytes): seq<Bytes>
    decreases |s|
  {
    if s == [] then [piece]
    else if s[0] == 47 then [piece] + Split([], s[1..])
    else Split(piece + [s[0]], s[1..])
  }

  lemma {:induction false} SplitName(piece: Bytes, name: Bytes, rest: Bytes)
    requires 47 !in name
    ensures Split(piece, name + rest) == Split(piece + name, rest)
    decreases |name|
  {
    if name == [] {
      assert name + rest == rest && piece + name == piece;
    } else {
      assert (name + rest)[1..] == name[1..] + rest;
      SplitName(piece + [name[0]], name[1..], rest);
      assert piece + [name[0]] + name[1..] == piece + name;
    }
  }

  lemma {:induction false} SplitPath(parts: seq<Bytes>)
    requires ValidParts(parts) && parts != []
    ensures Split([], Path(parts)) == parts
    decreases |parts|
  {
    var name := parts[0];
    assert [] + name == name;
    if |parts| == 1 {
      SplitName([], name, []);
      assert name + [] == name;
    } else {
      var rest := [47] + Path(parts[1..]);
      SplitName([], name, rest);
      assert name + rest == name + [47] + Path(parts[1..]);
      assert rest[1..] == Path(parts[1..]);
      SplitPath(parts[1..]);
      assert [name] + parts[1..] == parts;
    }
  }

  lemma PathInjective(a: seq<Bytes>, b: seq<Bytes>)
    requires ValidParts(a) && ValidParts(b) && Path(a) == Path(b)
    ensures a == b
  {
    if a != [] {
      SplitPath(a);
    }
    if b != [] {
      SplitPath(b);
    }
    SplitName([], [46], []);
    assert [] + [46] == [46] && [46] + [] == [46];
    assert a != [] ==> a[0] != [46];
    assert b != [] ==> b[0] != [46];
  }

  ghost predicate ValidLeaves(leaves: seq<Leaf>) {
    forall i :: 0 <= i < |leaves| ==> ValidParts(leaves[i].parts)
  }

  lemma RenderInjective(a: seq<Leaf>, b: seq<Leaf>)
    requires ValidLeaves(a) && ValidLeaves(b) && Render(a) == Render(b)
    ensures a == b
  {
    assert |a| == |Render(a)| == |b|;
    forall i | 0 <= i < |a| ensures a[i] == b[i] {
      assert Render(a)[i] == Render(b)[i];
      PathInjective(a[i].parts, b[i].parts);
    }
  }

  // ---- Leaves determine a tidy forest -------------------------------------------------------

  /** The leaves lie strictly below `parent`, in children of these names. */
  ghost predicate AllBelow(leaves: seq<Leaf>, parent: seq<Bytes>, names: set<Bytes>) {
    forall i :: 0 <= i < |leaves| ==>
      |parent| < |leaves[i].parts| && parent <= leaves[i].parts && leaves[i].parts[|parent|] in names &&
      ValidParts(leaves[i].parts)
  }

  /** The leaves of a tidy node are at or below it, all of them below it for a directory,
      and there is at least one. */
  lemma {:induction false} LeavesBelow(parts: seq<Bytes>, n: Node)
    requires ValidParts(parts) && (n.Dir? ==> n.children != [] && Tidy(n.children))
    ensures Leaves(parts, n) != []
    ensures forall i :: 0 <= i < |Leaves(parts, n)| ==>
              parts <= Leaves(parts, n)[i].parts && ValidParts(Leaves(parts, n)[i].parts)
              && (n.Dir? ==> |parts| < |Leaves(parts, n)[i].parts|)
    decreases n, 1
  {
    if n.Dir? {
      LeavesAllBelow(parts, n.children);
    }
  }

  lemma {:induction false} LeavesAllBelow(parent: seq<Bytes>, ns: seq<Node>)
    requires ValidParts(parent) && Tidy(ns)
    ensures AllBelow(LeavesAll(parent, ns), parent, Names(ns))
    ensures ns != [] ==> LeavesAll(parent, ns) != []
    decreases ns, 0
  {
    if ns != [] {
      var parts := parent + [ns[0].name];
      LeavesBelow(parts, ns[0]);
      LeavesAllBelow(parent, ns[1..]);
      HeadBelow(Leaves(parts, ns[0]), parent, ns[0].name);
      NamesCons(ns);
    }
  }

  lemma HeadBelow(leaves: seq<Leaf>, parent: seq<Bytes>, name: Bytes)
    requires forall i :: 0 <= i < |leaves| ==> parent + [name] <= leaves[i].parts && ValidParts(leaves[i].parts)
    ensures AllBelow(leaves, parent, {name})
  {
    forall i | 0 <= i < |leaves|
      ensures |parent| < |leaves[i].parts| && parent <= leaves[i].parts && leaves[i].parts[|parent|] == name
    {
      var p := parent + [name];
      assert p == leaves[i].parts[..|p|];
      assert p[|parent|] == name && parent == p[..|parent|];
    }
  }

  lemma NamesCons(ns: seq<Node>)
    requires ns != []
    ensures Names(ns) == {ns[0].name} + Names(ns[1..])
  {
    assert ns == [ns[0]] + ns[1..];
  }

  /** Two concatenations are split at the same place when the first parts agree in the name
      at position `pos` and the second parts avoid it. */
  lemma SplitsAlike(a: seq<Leaf>, x: seq<Leaf>, b: seq<Leaf>, y: seq<Leaf>, parent: seq<Bytes>, name: Bytes,
                    xs: set<Bytes>, ys: set<Bytes>)
    requires a + x == b + y
    requires AllBelow(a, parent, {name}) && AllBelow(b, parent, {name}) && AllBelow(x, parent, xs) &&
             AllBelow(y, parent, ys)
    requires name !in xs && name !in ys
    ensures a == b && x == y
  {
    if |a| < |b| {
      NotShorter(a, x, b, y, parent, name, xs);
    } else if |b| < |a| {
      NotShorter(b, y, a, x, parent, name, ys);
    }
    assert a == (a + x)[..|a|] && b == (b + y)[..|b|] && x == (a + x)[|a|..] && y == (b + y)[|b|..];
  }

  lemma NotShorter(a: seq<Leaf>, x: seq<Leaf>, b: seq<Leaf>, y: seq<Leaf>, parent: seq<Bytes>, name: Bytes,
                   xs: set<Bytes>)
    requires AllBelow(b, parent, {name}) && AllBelow(x, parent, xs) && name !in xs && |a| < |b|
    ensures a + x != b + y
  {
    if |a + x| == |b + y| {
      assert (a + x)[|a|] == x[0] && (b + y)[|a|] == b[|a|];
    }
  }

  lemma {:induction false} NodeInjective(parts: seq<Bytes>, m: Node, n: Node)
    requires ValidParts(parts) && m.name == n.name && Leaves(parts, m) == Leaves(parts, n)
    requires m.Dir? ==> m.mode == 0 && m.children != [] && Tidy(m.children)
    requires n.Dir? ==> n.mode == 0 && n.children != [] && Tidy(n.children)
    ensures m == n
    decreases m, 1
  {
    LeavesBelow(parts, m);
    LeavesBelow(parts, n);
    var first := Leaves(parts, m)[0];
    assert first == Leaves(parts, n)[0];
    if m.Dir? && n.Dir? {
      ForestInjective(parts, m.children, n.children);
    }
  }

  lemma {:induction false} ForestInjective(parent: seq<Bytes>, a: seq<Node>, b: seq<Node>)
    requires ValidParts(parent) && Tidy(a) && Tidy(b) && LeavesAll(parent, a) == LeavesAll(parent, b)
    ensures a == b
    decreases a, 0
  {
    LeavesAllBelow(parent, a);
    LeavesAllBelow(parent, b);
    if a != [] && b != [] {
      SameHead(parent, a, b);
      var parts := parent + [a[0].name];
      NodeInjective(parts, a[0], b[0]);
      ForestInjective(parent, a[1..], b[1..]);
      assert a == [a[0]] + a[1..] && b == [b[0]] + b[1..];
    }
  }

  lemma SameHead(parent: seq<Bytes>, a: seq<Node>, b: seq<Node>)
    requires ValidParts(parent) && Tidy(a) && Tidy(b) && a != [] && b != [] &&
             LeavesAll(parent, a) == LeavesAll(parent, b)
    ensures a[0].name == b[0].name
    ensures Leaves(parent + [a[0].name], a[0]) == Leaves(parent + [b[0].name], b[0])
    ensures LeavesAll(parent, a[1..]) == LeavesAll(parent, b[1..])
  {
    var la, lb := Leaves(parent + [a[0].name], a[0]), Leaves(parent + [b[0].name], b[0]);
    LeavesBelow(parent + [a[0].name], a[0]);
    LeavesBelow(parent + [b[0].name], b[0]);
    HeadBelow(la, parent, a[0].name);
    HeadBelow(lb, parent, b[0].name);
    LeavesAllBelow(parent, a[1..]);
    LeavesAllBelow(parent, b[1..]);
    assert la[0] == LeavesAll(parent, a)[0] == lb[0];
    assert la[0].parts[|parent|] == a[0].name && lb[0].parts[|parent|] == b[0].name;
    SplitsAlike(la, LeavesAll(parent, a[1..]), lb, LeavesAll(parent, b[1..]), parent, a[0].name, Names(a[1..]),
                Names(b[1..]));
  }

  // ---- The build key ------------------------------------------------------------------------

  /** The leaves of a whole tree. */
  function TreeLeaves(t: Node): seq<Leaf> {
    if t.File? then [Leaf([], t.mode, t.body)] else LeavesAll([], Canon(t).children)
  }

  lemma TreeWalk(t: Node)
    ensures Walk(None, t) == Render(TreeLeaves(t))
  {
    WalkIsLeaves([], t);
  }

  lemma TreeLeavesExact(s: Node, t: Node)
    requires GoodTree(s) && GoodTree(t)
    ensures ValidLeaves(TreeLeaves(s))
    ensures TreeLeaves(s) == TreeLeaves(t) <==> Canon(s) == Canon(t)
  {
    var a, b := Canon(s), Canon(t);
    if s.Dir? {
      CanonIsTidy(s.children);
      LeavesAllBelow([], a.children);
    }
    if t.Dir? {
      CanonIsTidy(t.children);
      LeavesAllBelow([], b.children);
    }
    if s.Dir? && t.Dir? {
      if TreeLeaves(s) == TreeLeaves(t) {
        ForestInjective([], a.children, b.children);
      }
    } else if TreeLeaves(s) == TreeLeaves(t) {
      assert TreeLeaves(s)[0] == TreeLeaves(t)[0];
    }
  }

  /** Two trees have the same entries in the same order if and only if their canonical forms
      are the same tree. */
  lemma WalkExact(s: Node, t: Node)
    requires GoodTree(s) && GoodTree(t)
    ensures Walk(None, s) == Walk(None, t) <==> Canon(s) == Canon(t)
  {
    TreeWalk(s);
    TreeWalk(t);
    TreeLeavesExact(s, t);
    TreeLeavesExact(t, s);
    if Walk(None, s) == Walk(None, t) {
      RenderInjective(TreeLeaves(s), TreeLeaves(t));
    }
  }

  /** The build key is exact: two builds feed the hash the same bytes if and only if their
      Dockerfiles and their canonical trees are the same. */
  lemma KeyExact(df1: Bytes, t1: Node, df2: Bytes, t2: Node)
    requires GoodTree(t1) && GoodTree(t2) && AllValid(Walk(None, t1)) && AllValid(Walk(None, t2))
    requires |df1| < Pow256(8) && |df2| < Pow256(8)
    ensures Stream(df1, Walk(None, t1)) == Stream(df2, Walk(None, t2)) <==> df1 == df2 && Canon(t1) == Canon(t2)
  {
    StreamInjective(df1, Walk(None, t1), df2, Walk(None, t2));
    WalkExact(t1, t2);
  }

  /** Renaming the source directory leaves the key alone, if and only if neither or both of
      the names are skipped, or the directory holds no entry anyway. */
  lemma RootNameExactly(name1: Bytes, name2: Bytes, mode: nat, children: seq<Node>)
    requires GoodNames(children)
    ensures var s, t := Dir(name1, mode, children), Dir(name2, mode, children);
            Walk(None, s) == Walk(None, t) <==> (Skipped(s) <==> Skipped(t)) || CanonAll(children) == []
  {
    WalkExact(Dir(name1, mode, children), Dir(name2, mode, children));
  }

  /** An empty directory does not reach the key: two different trees that share theirs. */
  lemma EmptyDirectoryIsInvisible(df: Bytes, mode: nat)
    ensures var s, t := Dir([97], mode, []), Dir([97], mode, [Dir([98], mode, [])]);
            s != t && GoodTree(s) && GoodTree(t) && Stream(df, Walk(None, s)) == Stream(df, Walk(None, t))
  {
    var empty := Dir([98], mode, []);
    var s, t := Dir([97], mode, []), Dir([97], mode, [empty]);
    assert [empty][1..] == [];
    assert CanonAll([empty]) == [] + CanonAll([]) == [];
    assert s.children != t.children;
    WalkExact(s, t);
  }

  /** A directory that holds entries is hidden from the key if and only if it is called .git
      or .dispatcher. */
  lemma HiddenExactly(name: Bytes, mode: nat, children: seq<Node>)
    requires CanonAll(children) != []
    ensures CanonNode(Dir(name, mode, children)) == [] <==>
            name == [46, 103, 105, 116] || name == [46, 100, 105, 115, 112, 97, 116, 99, 104, 101, 114]
  {
  }

  /** Nor does the mode of a directory: changing that of any one leaves the key as it was. */
  lemma DirectoryModeIsInvisible(name: Bytes, mode1: nat, mode2: nat, children: seq<Node>, rest: seq<Node>)
    ensures CanonAll([Dir(name, mode1, children)] + rest) == CanonAll([Dir(name, mode2, children)] + rest)
    ensures Canon(Dir(name, mode1, children)) == Canon(Dir(name, mode2, children))
  {
    var a, b := Dir(name, mode1, children), Dir(name, mode2, children);
    assert ([a] + rest)[1..] == rest && ([b] + rest)[1..] == rest;
  }
}
