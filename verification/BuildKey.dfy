/**
 The build-cache key: the bytes fed to the hash while the source tree is walked.
 */
module BuildKey {
  import opened Common

  type Bytes = seq<Byte>

  // ---- Length-prefixed chunks -------------------------------------------------------

  function Pow256(k: nat): nat {
    if k == 0 then 1 else 256 * Pow256(k - 1)
  }

  /** `n` in `width` little-endian bytes. */
  function LittleEndian(n: nat, width: nat): (r: Bytes)
    ensures |r| == width
  {
    if width == 0 then [] else [n % 256] + LittleEndian(n / 256, width - 1)
  }

  function FromLittleEndian(b: Bytes): nat {
    if b == [] then 0 else b[0] + 256 * FromLittleEndian(b[1..])
  }

  lemma {:induction false} LittleEndianRoundTrip(n: nat, width: nat)
    requires n < Pow256(width)
    ensures FromLittleEndian(LittleEndian(n, width)) == n
  {
    if width > 0 {
      LittleEndianRoundTrip(n / 256, width - 1);
      assert LittleEndian(n, width)[1..] == LittleEndian(n / 256, width - 1);
    }
  }

  function Frame(chunk: Bytes): Bytes {
    LittleEndian(|chunk|, 8) + chunk
  }

  function FrameAll(chunks: seq<Bytes>): Bytes {
    if chunks == [] then [] else Frame(chunks[0]) + FrameAll(chunks[1..])
  }

  /** A slice length always fits in 64 bits. */
  ghost predicate Sized(chunks: seq<Bytes>) {
    forall i :: 0 <= i < |chunks| ==> |chunks[i]| < Pow256(8)
  }

  function Unframe(s: Bytes): Option<seq<Bytes>>
    decreases |s|
  {
    if s == [] then Some([])
    else if |s| < 8 then None
    else
      var n := FromLittleEndian(s[..8]);
      if |s| < 8 + n then None
      else
        var rest := Unframe(s[8 + n..]);
        if rest.None? then None else Some([s[8..8 + n]] + rest.value)
  }

  /** Every framed list of chunks decodes to itself. */
  lemma {:induction false} FramesRoundTrip(chunks: seq<Bytes>)
    requires Sized(chunks)
    ensures Unframe(FrameAll(chunks)) == Some(chunks)
  {
    if chunks != [] {
      var s, n := FrameAll(chunks), |chunks[0]|;
      assert |chunks[0]| < Pow256(8);
      LittleEndianRoundTrip(n, 8);
      assert s[..8] == LittleEndian(n, 8);
      assert s[8..8 + n] == chunks[0];
      assert s[8 + n..] == FrameAll(chunks[1..]);
      FramesRoundTrip(chunks[1..]);
      assert [chunks[0]] + chunks[1..] == chunks;
    }
  }

  lemma {:induction false} FrameAllConcat(a: seq<Bytes>, b: seq<Bytes>)
    ensures FrameAll(a + b) == FrameAll(a) + FrameAll(b)
  {
    if a == [] {
      assert a + b == b;
    } else {
      assert (a + b)[1..] == a[1..] + b;
      FrameAllConcat(a[1..], b);
    }
  }

  // ---- File entries -------------------------------------------------------------------

  /** Whether the mode has the bit of value `bit`. */
  predicate Has(mode: nat, bit: nat)
    requires bit > 0
  {
    (mode / bit) % 2 == 1
  }

  /** fs.ModeSymlink. */
  predicate IsLink(mode: nat) {
    Has(mode, 0x0800_0000)
  }

  /** None of the bits of fs.ModeType: directory, symlink, device, named pipe, socket,
      character device, irregular. */
  predicate IsRegular(mode: nat) {
    && !Has(mode, 0x8000_0000) && !IsLink(mode) && !Has(mode, 0x0400_0000) && !Has(mode, 0x0200_0000)
    && !Has(mode, 0x0100_0000) && !Has(mode, 0x0020_0000) && !Has(mode, 0x0008_0000)
  }

  /** One non-directory found by the walk; `body` is a regular file's content or a
      link's target, and nothing for any other kind. */
  datatype Entry = Entry(path: Bytes, mode: nat, body: Bytes)
  {
    predicate Valid() {
      && mode < Pow256(4)
      && |path| < Pow256(8) && |body| < Pow256(8)
      && (!IsLink(mode) && !IsRegular(mode) ==> body == [])
    }
  }

  const DOCKERFILE: Bytes := [100, 111, 99, 107, 101, 114, 102, 105, 108, 101]
  const SYMLINK: Bytes := [115, 121, 109, 108, 105, 110, 107]

  /** What follows the path and the mode. */
  function Tail(e: Entry): seq<Bytes> {
    if IsLink(e.mode) then [SYMLINK, e.body] else if IsRegular(e.mode) then [e.body] else []
  }

  function Chunks(e: Entry): seq<Bytes> {
    [e.path, LittleEndian(e.mode, 4)] + Tail(e)
  }

  function AllChunks(es: seq<Entry>): seq<Bytes> {
    if es == [] then [] else Chunks(es[0]) + AllChunks(es[1..])
  }

  lemma {:induction false} AllChunksConcat(a: seq<Entry>, b: seq<Entry>)
    ensures AllChunks(a + b) == AllChunks(a) + AllChunks(b)
  {
    if a == [] {
      assert a + b == b;
    } else {
      assert (a + b)[1..] == a[1..] + b;
      AllChunksConcat(a[1..], b);
      assert Chunks(a[0]) + (AllChunks(a[1..]) + AllChunks(b)) == Chunks(a[0]) + AllChunks(a[1..]) + AllChunks(b);
    }
  }

  ghost predicate AllValid(es: seq<Entry>) {
    forall i :: 0 <= i < |es| ==> es[i].Valid()
  }

  /** The mode chunk says how many chunks the entry has. */
  function ParseEntries(cs: seq<Bytes>): Option<seq<Entry>>
    decreases |cs|
  {
    if cs == [] then Some([])
    else if |cs| < 2 then None
    else
      var mode := FromLittleEndian(cs[1]);
      var used := if IsLink(mode) then 4 else if IsRegular(mode) then 3 else 2;
      if |cs| < used then None
      else
        var rest := ParseEntries(cs[used..]);
        var body := if used == 2 then [] else cs[used - 1];
        if rest.None? then None else Some([Entry(cs[0], mode, body)] + rest.value)
  }

  lemma {:induction false} EntriesRoundTrip(es: seq<Entry>)
    requires AllValid(es)
    ensures ParseEntries(AllChunks(es)) == Some(es)
    ensures Sized(AllChunks(es))
  {
    if es != [] {
      var e, cs := es[0], AllChunks(es);
      assert e.Valid();
      EntriesRoundTrip(es[1..]);
      LittleEndianRoundTrip(e.mode, 4);
      var used := |Chunks(e)|;
      assert cs[..used] == Chunks(e) && cs[used..] == AllChunks(es[1..]);
      assert cs[0] == e.path && cs[1] == LittleEndian(e.mode, 4);
      assert used > 2 ==> cs[used - 1] == e.body;
      assert [e] + es[1..] == es;
      assert Pow256(8) > 4 by { assert Pow256(7) > 0; }
      assert Sized(Chunks(e)) by { SmallChunks(e); }
    }
  }

  lemma SmallChunks(e: Entry)
    requires e.Valid()
    ensures Sized(Chunks(e))
  {
    assert Pow256(1) == 256 && Pow256(8) == 256 * Pow256(7);
    PowerPositive(7);
  }

  lemma {:induction false} PowerPositive(k: nat)
    ensures Pow256(k) > 0
  {
    if k > 0 {
      PowerPositive(k - 1);
    }
  }

  /** All bytes fed to the hash. */
  function Stream(dockerfile: Bytes, es: seq<Entry>): Bytes {
    FrameAll([DOCKERFILE, dockerfile] + AllChunks(es))
  }

  /** The stream determines the Dockerfile and the ordered list of entries. */
  lemma StreamInjective(df1: Bytes, es1: seq<Entry>, df2: Bytes, es2: seq<Entry>)
    requires AllValid(es1) && AllValid(es2) && |df1| < Pow256(8) && |df2| < Pow256(8)
    ensures Stream(df1, es1) == Stream(df2, es2) <==> df1 == df2 && es1 == es2
  {
    if Stream(df1, es1) == Stream(df2, es2) {
      StreamDecodes(df1, es1);
      StreamDecodes(df2, es2);
      var c1, c2 := [DOCKERFILE, df1] + AllChunks(es1), [DOCKERFILE, df2] + AllChunks(es2);
      assert c1 == c2;
      assert c1[1] == df1 && c2[1] == df2;
      assert c1[2..] == AllChunks(es1) && c2[2..] == AllChunks(es2);
    }
  }

  lemma StreamDecodes(df: Bytes, es: seq<Entry>)
    requires AllValid(es) && |df| < Pow256(8)
    ensures Unframe(Stream(df, es)) == Some([DOCKERFILE, df] + AllChunks(es))
    ensures ParseEntries(AllChunks(es)) == Some(es)
  {
    EntriesRoundTrip(es);
    PowerPositive(7);
    assert |DOCKERFILE| < Pow256(8);
    FramesRoundTrip([DOCKERFILE, df] + AllChunks(es));
  }

  // ---- The walk -------------------------------------------------------------------------

  /** A source tree; children are in the walk's lexical order. */
  datatype Node =
    | File(name: Bytes, mode: nat, body: Bytes)
    | Dir(name: Bytes, mode: nat, children: seq<Node>)

  const GIT: Bytes := [46, 103, 105, 116]
  const DISPATCHER: Bytes := [46, 100, 105, 115, 112, 97, 116, 99, 104, 101, 114]

  predicate Skipped(n: Node) {
    n.Dir? && (n.name == GIT || n.name == DISPATCHER)
  }

  /** Path of a child, relative to the source directory (which itself is `None`). */
  function Join(parent: Option<Bytes>, name: Bytes): Option<Bytes> {
    if parent.None? then Some(name) else Some(parent.value + [47] + name)
  }

  /** Entries met below a node whose own relative path is `rel`. */
  function Walk(rel: Option<Bytes>, n: Node): seq<Entry>
    decreases n, 1
  {
    if n.File? then [Entry(if rel.None? then [46] else rel.value, n.mode, n.body)]
    else if Skipped(n) then []
    else WalkAll(rel, n.children)
  }

  function WalkAll(parent: Option<Bytes>, ns: seq<Node>): seq<Entry>
    decreases ns, 0
  {
    if ns == [] then [] else Walk(Join(parent, ns[0].name), ns[0]) + WalkAll(parent, ns[1..])
  }

  class Hasher {
    var fed: Bytes

    constructor ()
      ensures fed == []
    {
      fed := [];
    }

    method HashChunk(b: Bytes)
      modifies this
      ensures fed == old(fed) + Frame(b)
    {
      fed := fed + LittleEndian(|b|, 8);
      fed := fed + b;
    }
  }

  lemma FrameTwo(a: Bytes, b: Bytes)
    ensures FrameAll([a, b]) == Frame(a) + Frame(b)
  {
    assert [a, b][1..] == [b] && [b][1..] == [];
    assert FrameAll([b]) == Frame(b) + [] == Frame(b);
  }

  lemma Regroup(a: Bytes, b: Bytes, c: Bytes)
    ensures a + b + c == a + (b + c)
  {
  }

  method HashPair(h: Hasher, a: Bytes, b: Bytes)
    modifies h
    ensures h.fed == old(h.fed) + FrameAll([a, b])
  {
    ghost var before := h.fed;
    h.HashChunk(a);
    h.HashChunk(b);
    FrameTwo(a, b);
    Regroup(before, Frame(a), Frame(b));
  }

  lemma SingleFrame(b: Bytes)
    ensures FrameAll([b]) == Frame(b)
  {
    assert [b][1..] == [];
    assert Frame(b) + [] == Frame(b);
  }

  method HashTail(h: Hasher, e: Entry)
    modifies h
    ensures h.fed == old(h.fed) + FrameAll(Tail(e))
  {
    if IsLink(e.mode) {
      HashPair(h, SYMLINK, e.body);
      return;
    }
    if !IsRegular(e.mode) {
      return;
    }
    h.HashChunk(e.body);
    SingleFrame(e.body);
  }

  method HashEntry(h: Hasher, e: Entry)
    modifies h
    ensures h.fed == old(h.fed) + FrameAll(Chunks(e))
  {
    ghost var before := h.fed;
    var mode := LittleEndian(e.mode, 4);
    HashPair(h, e.path, mode);
    HashTail(h, e);
    FrameAllConcat([e.path, mode], Tail(e));
    Regroup(before, FrameAll([e.path, mode]), FrameAll(Tail(e)));
  }

  /** The relative paths of what the walk reads: files, and directories it enters. */
  function Visited(rel: Option<Bytes>, n: Node): set<Option<Bytes>>
    decreases n, 1
  {
    if n.File? then {rel} else if Skipped(n) then {} else {rel} + VisitedAll(rel, n.children)
  }

  function VisitedAll(parent: Option<Bytes>, ns: seq<Node>): set<Option<Bytes>>
    decreases ns, 0
  {
    if ns == [] then {} else Visited(Join(parent, ns[0].name), ns[0]) + VisitedAll(parent, ns[1..])
  }

  lemma OneEntry(e: Entry)
    ensures AllChunks([e]) == Chunks(e)
  {
    assert [e][1..] == [];
    assert Chunks(e) + [] == Chunks(e);
  }

  /** The WalkDir callback over a whole subtree; an unreadable file or directory stops the
      walk. */
  method HashTree(h: Hasher, rel: Option<Bytes>, n: Node, unreadable: set<Option<Bytes>>) returns (ok: bool)
    modifies h
    ensures ok ==> h.fed == old(h.fed) + FrameAll(AllChunks(Walk(rel, n)))
    ensures ok <==> Visited(rel, n) !! unreadable
    decreases n, 1
  {
    if n.Dir? {
      if n.name == GIT || n.name == DISPATCHER {
        return true;
      }
      if rel in unreadable {
        return false;
      }
      ok := HashTrees(h, rel, n.children, unreadable);
      return;
    }
    if rel in unreadable {
      return false;
    }
    var e := Entry(if rel.None? then [46] else rel.value, n.mode, n.body);
    OneEntry(e);
    HashEntry(h, e);
    ok := true;
  }

  method HashTrees(h: Hasher, parent: Option<Bytes>, ns: seq<Node>, unreadable: set<Option<Bytes>>) returns (ok: bool)
    modifies h
    ensures ok ==> h.fed == old(h.fed) + FrameAll(AllChunks(WalkAll(parent, ns)))
    ensures ok <==> VisitedAll(parent, ns) !! unreadable
    decreases ns, 0
  {
    if ns == [] {
      return true;
    }
    var first, rest := ns[0], ns[1..];
    ghost var a, b := Walk(Join(parent, first.name), first), WalkAll(parent, rest);
    ghost var before := h.fed;
    AllChunksConcat(a, b);
    FrameAllConcat(AllChunks(a), AllChunks(b));
    Regroup(before, FrameAll(AllChunks(a)), FrameAll(AllChunks(b)));
    ok := HashTree(h, Join(parent, first.name), first, unreadable);
    if ok {
      ok := HashTrees(h, parent, rest, unreadable);
    }
  }

  /** buildDigest up to the final hash: what the hash has been fed.  It fails exactly when
      the Dockerfile, or something the walk reads, cannot be read. */
  method BuildDigestStream(dockerfile: Option<Bytes>, root: Node, unreadable: set<Option<Bytes>>)
    returns (r: Option<Bytes>)
    ensures r.Some? ==> dockerfile.Some? && r.value == Stream(dockerfile.value, Walk(None, root))
    ensures r.Some? <==> dockerfile.Some? && Visited(None, root) !! unreadable
  {
    if dockerfile.None? {
      return None;
    }
    var h := new Hasher();
    h.HashChunk(DOCKERFILE);
    h.HashChunk(dockerfile.value);
    FrameTwo(DOCKERFILE, dockerfile.value);
    FrameAllConcat([DOCKERFILE, dockerfile.value], AllChunks(Walk(None, root)));
    assert h.fed == FrameAll([DOCKERFILE, dockerfile.value]);
    var ok := HashTree(h, None, root, unreadable);
    r := if ok then Some(h.fed) else None;
  }
}
