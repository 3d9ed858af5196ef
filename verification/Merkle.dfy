/** The Merkle reduction of tools/mkdisk.c: pair neighbours, promote a lone last
    one, until a single digest is left. */
module Merkle {
  import opened Basics

  type Digest = d: seq<Byte> | |d| == 32 witness seq(32, i => 0)
  type Hash = seq<Byte> -> Digest

  const BLOCK_SIZE: nat := 4096

  // ----- the reduction, level by level ---------------------------------------------------

  /** One level: f on each pair, a lone last element unchanged. */
  function PairUp<T>(f: (T, T) -> T, s: seq<T>): (r: seq<T>)
    ensures |r| == (|s| + 1) / 2
  {
    if |s| < 2 then s else [f(s[0], s[1])] + PairUp(f, s[2..])
  }

  function Reduce<T>(f: (T, T) -> T, s: seq<T>): T
    requires s != []
    decreases |s|
  {
    if |s| == 1 then s[0] else Reduce(f, PairUp(f, s))
  }

  lemma {:induction false} PairUpAt<T>(f: (T, T) -> T, s: seq<T>, i: nat)
    requires i < |PairUp(f, s)|
    ensures PairUp(f, s)[i] == if 2 * i + 1 == |s| then s[2 * i] else f(s[2 * i], s[2 * i + 1])
    decreases |s|
  {
    if |s| >= 2 && i > 0 {
      PairUpAt(f, s[2..], i - 1);
    }
  }

  // ----- the same tree, top down -----------------------------------------------------------

  /** The largest power of two below n. */
  function Split(n: nat): (k: nat)
    requires n >= 2
    ensures 1 <= k < n && n <= 2 * k
  {
    if n == 2 then 1 else 2 * Split((n + 1) / 2)
  }

  /** Cut at the largest power of two below the length. */
  function TopDown<T>(f: (T, T) -> T, s: seq<T>): T
    requires s != []
    decreases |s|
  {
    if |s| == 1 then s[0]
    else f(TopDown(f, s[..Split(|s|)]), TopDown(f, s[Split(|s|)..]))
  }

  ghost predicate PowerOfTwo(n: nat) {
    n == 1 || (n % 2 == 0 && n >= 2 && PowerOfTwo(n / 2))
  }

  lemma {:induction false} SplitIsPower(n: nat)
    requires n >= 2
    ensures PowerOfTwo(Split(n))
  {
    if n > 2 {
      SplitIsPower((n + 1) / 2);
    }
  }

  lemma {:induction false} PairUpConcat<T>(f: (T, T) -> T, a: seq<T>, b: seq<T>)
    requires |a| % 2 == 0
    ensures PairUp(f, a + b) == PairUp(f, a) + PairUp(f, b)
    decreases |a|
  {
    if a == [] {
      assert a + b == b;
    } else {
      assert (a + b)[2..] == a[2..] + b;
      PairUpConcat(f, a[2..], b);
    }
  }

  /** Reducing level by level and cutting at powers of two build the same tree. */
  lemma {:induction false} ReduceIsTopDown<T>(f: (T, T) -> T, s: seq<T>)
    requires s != []
    ensures Reduce(f, s) == TopDown(f, s)
    decreases |s|
  {
    if |s| == 2 {
      assert PairUp(f, s) == [f(s[0], s[1])];
      assert s[..1][0] == s[0] && s[1..][0] == s[1];
    } else if |s| > 2 {
      ReduceIsTopDown(f, PairUp(f, s));
      TopDownPairUp(f, s);
    }
  }

  /** One level of pairing does not change the top-down tree. */
  lemma {:induction false} TopDownPairUp<T>(f: (T, T) -> T, s: seq<T>)
    requires |s| >= 2
    ensures TopDown(f, PairUp(f, s)) == TopDown(f, s)
    decreases |s|
  {
    if |s| == 2 {
      assert PairUp(f, s) == [f(s[0], s[1])];
      assert s[..1][0] == s[0] && s[1..][0] == s[1];
    } else {
      var k := Split(|s|);
      var p := PairUp(f, s);
      assert k == 2 * Split(|p|);
      assert s == s[..k] + s[k..];
      PairUpConcat(f, s[..k], s[k..]);
      assert p[..k / 2] == PairUp(f, s[..k]) && p[k / 2..] == PairUp(f, s[k..]);
      TopDownPairUp(f, s[..k]);
      if |s[k..]| >= 2 {
        TopDownPairUp(f, s[k..]);
      }
    }
  }

  // ----- in place ---------------------------------------------------------------------------------

  /** First a, then b. */
  function Concat(a: seq<Byte>, b: seq<Byte>): (r: seq<Byte>)
    ensures |r| == |a| + |b| && r[..|a|] == a && r[|a|..] == b
  {
    a + b
  }

  function Combine(hash: Hash): (Digest, Digest) -> Digest {
    (a, b) => hash(Concat(a, b))
  }

  /** One pass over the first n digests of `level`: the digest written at `out`
      never lies beyond the ones just read. */
  method ReduceLevel(hash: Hash, level: array<Digest>, n: nat) returns (out: nat)
    requires 2 <= n <= level.Length
    modifies level
    ensures out == (n + 1) / 2
    ensures level[..out] == PairUp(Combine(hash), old(level[..n])) && Pairs(hash, old(level[..n]), level[..out])
  {
    out := 0;
    var i := 0;
    ghost var old_ := level[..n];
    while i < n
      invariant i == 2 * out || (i == n + 1 && i == 2 * out)
      invariant out <= (n + 1) / 2
      invariant forall k :: i <= k < n ==> level[k] == old_[k]
      invariant forall k :: 0 <= k < out ==> level[k] == PairUp(Combine(hash), old_)[k]
    {
      PairUpAt(Combine(hash), old_, out);
      if i + 1 == n {
        level[out] := level[i];
      } else {
        level[out] := hash(Concat(level[i], level[i + 1]));
      }
      i := i + 2;
      out := out + 1;
    }
    LevelIs(hash, old_);
  }

  /** Entry k is the hash of entries 2k and 2k + 1 of s, one after the other; a lone
      last one is taken over. */
  ghost predicate Pairs(hash: Hash, s: seq<Digest>, r: seq<Digest>) {
    && |r| == (|s| + 1) / 2
    && forall k :: 0 <= k < |r| ==> r[k] == if 2 * k + 1 == |s| then s[2 * k] else hash(Concat(s[2 * k], s[2 * k + 1]))
  }

  lemma LevelIs(hash: Hash, s: seq<Digest>)
    ensures Pairs(hash, s, PairUp(Combine(hash), s))
  {
    var r := PairUp(Combine(hash), s);
    forall k | 0 <= k < |r| ensures r[k] == if 2 * k + 1 == |s| then s[2 * k] else hash(Concat(s[2 * k], s[2 * k + 1])) {
      PairUpAt(Combine(hash), s, k);
    }
  }

  /** The whole loop: the root ends up in level[0]. */
  method RootInPlace(hash: Hash, level: array<Digest>)
    modifies level
    ensures level.Length > 0 ==> level[0] == Reduce(Combine(hash), old(level[..]))
  {
    var n := level.Length;
    assert level[..n] == level[..];
    while n > 1
      invariant n <= level.Length && (level.Length > 0 ==> n > 0)
      invariant level.Length > 0 ==> Reduce(Combine(hash), level[..n]) == Reduce(Combine(hash), old(level[..]))
    {
      n := ReduceLevel(hash, level, n);
    }
  }

  // ----- binding: equal roots of different inputs exhibit a collision -----------------------------

  type Block = b: seq<Byte> | |b| == BLOCK_SIZE witness seq(BLOCK_SIZE, i => 0)

  datatype Tree = Leaf(block: Block) | Node(left: Tree, right: Tree)

  /** The string hashed at the top of a tree. */
  function Preimage(hash: Hash, t: Tree): seq<Byte> {
    match t
    case Leaf(b) => b
    case Node(l, r) => Concat(Value(hash, l), Value(hash, r))
  }

  function Value(hash: Hash, t: Tree): Digest {
    match t
    case Leaf(b) => hash(b)
    case Node(l, r) => hash(Concat(Value(hash, l), Value(hash, r)))
  }

  /** Every string hashed on the way to the root. */
  function Hashed(hash: Hash, t: Tree): set<seq<Byte>> {
    match t
    case Leaf(b) => {b}
    case Node(l, r) => {Concat(Value(hash, l), Value(hash, r))} + Hashed(hash, l) + Hashed(hash, r)
  }

  function Leaves(t: Tree): seq<Block> {
    match t
    case Leaf(b) => [b]
    case Node(l, r) => Leaves(l) + Leaves(r)
  }

  function Join(): (Tree, Tree) -> Tree {
    (l, r) => Node(l, r)
  }

  function LeafRow(blocks: seq<Block>): (r: seq<Tree>)
    ensures |r| == |blocks|
  {
    seq(|blocks|, i requires 0 <= i < |blocks| => Leaf(blocks[i]))
  }

  function DigestRow(hash: Hash, ts: seq<Tree>): (r: seq<Digest>)
    ensures |r| == |ts|
  {
    seq(|ts|, i requires 0 <= i < |ts| => Value(hash, ts[i]))
  }

  function Flatten(ts: seq<Tree>): seq<Block> {
    if ts == [] then [] else Leaves(ts[0]) + Flatten(ts[1..])
  }

  /** The digest the tool prints for a non-empty sequence of blocks. */
  function Root(hash: Hash, blocks: seq<Block>): Digest
    requires blocks != []
  {
    Reduce(Combine(hash), DigestRow(hash, LeafRow(blocks)))
  }

  function TreeOf(blocks: seq<Block>): Tree
    requires blocks != []
  {
    Reduce(Join(), LeafRow(blocks))
  }

  lemma {:induction false} PairUpDigests(hash: Hash, ts: seq<Tree>)
    ensures PairUp(Combine(hash), DigestRow(hash, ts)) == DigestRow(hash, PairUp(Join(), ts))
    decreases |ts|
  {
    if |ts| >= 2 {
      PairUpDigests(hash, ts[2..]);
      assert DigestRow(hash, ts)[2..] == DigestRow(hash, ts[2..]);
      var a, b := [Node(ts[0], ts[1])], PairUp(Join(), ts[2..]);
      assert Combine(hash)(Value(hash, ts[0]), Value(hash, ts[1])) == Value(hash, a[0]);
      assert DigestRow(hash, a + b) == DigestRow(hash, a) + DigestRow(hash, b);
    }
  }

  lemma {:induction false} ReduceDigests(hash: Hash, ts: seq<Tree>)
    requires ts != []
    ensures Reduce(Combine(hash), DigestRow(hash, ts)) == Value(hash, Reduce(Join(), ts))
    decreases |ts|
  {
    if |ts| > 1 {
      PairUpDigests(hash, ts);
      ReduceDigests(hash, PairUp(Join(), ts));
    }
  }

  lemma {:induction false} PairUpLeaves(ts: seq<Tree>)
    ensures Flatten(PairUp(Join(), ts)) == Flatten(ts)
    decreases |ts|
  {
    if |ts| >= 2 {
      PairUpLeaves(ts[2..]);
      assert ts[1..][1..] == ts[2..];
      assert PairUp(Join(), ts)[1..] == PairUp(Join(), ts[2..]);
    }
  }

  lemma {:induction false} ReduceLeaves(ts: seq<Tree>)
    requires ts != []
    ensures Leaves(Reduce(Join(), ts)) == Flatten(ts)
    decreases |ts|
  {
    if |ts| == 1 {
      assert ts[1..] == [];
    } else {
      PairUpLeaves(ts);
      ReduceLeaves(PairUp(Join(), ts));
    }
  }

  lemma {:induction false} FlattenLeafRow(blocks: seq<Block>)
    ensures Flatten(LeafRow(blocks)) == blocks
  {
    if blocks != [] {
      FlattenLeafRow(blocks[1..]);
      assert LeafRow(blocks)[1..] == LeafRow(blocks[1..]);
    }
  }

  /** Different trees with the same digest: walk down together to two different
      strings with the same hash. */
  lemma {:induction false} Collision(hash: Hash, t: Tree, u: Tree) returns (x: seq<Byte>, y: seq<Byte>)
    requires t != u && Value(hash, t) == Value(hash, u)
    ensures x != y && hash(x) == hash(y) && x in Hashed(hash, t) && y in Hashed(hash, u)
    decreases t
  {
    x, y := Preimage(hash, t), Preimage(hash, u);
    if x == y {
      assert |Preimage(hash, t)| == if t.Leaf? then BLOCK_SIZE else 64;
      assert |Preimage(hash, u)| == if u.Leaf? then BLOCK_SIZE else 64;
      assert t.Node? && u.Node?;
      assert x[..32] == Value(hash, t.left) && y[..32] == Value(hash, u.left);
      assert x[32..] == Value(hash, t.right) && y[32..] == Value(hash, u.right);
      if t.left != u.left {
        x, y := Collision(hash, t.left, u.left);
      } else {
        x, y := Collision(hash, t.right, u.right);
      }
    }
  }

  /** Two different block sequences, of any lengths, with one root give two
      different strings, one hashed for each root, with one hash. */
  lemma EqualRootsCollide(hash: Hash, a: seq<Block>, b: seq<Block>) returns (x: seq<Byte>, y: seq<Byte>)
    requires a != [] && b != [] && a != b && Root(hash, a) == Root(hash, b)
    ensures x != y && hash(x) == hash(y)
    ensures x in Hashed(hash, TreeOf(a)) && y in Hashed(hash, TreeOf(b))
  {
    ReduceDigests(hash, LeafRow(a));
    ReduceDigests(hash, LeafRow(b));
    ReduceLeaves(LeafRow(a));
    ReduceLeaves(LeafRow(b));
    FlattenLeafRow(a);
    FlattenLeafRow(b);
    x, y := Collision(hash, TreeOf(a), TreeOf(b));
  }

  // ----- the root of a sequence of blocks ------------------------------------------------------------

  /** One block: its hash.  More: the hash of the two roots, one after the other,
      of the blocks before and from the largest power of two below their number. */
  lemma RootIs(hash: Hash, blocks: seq<Block>) returns (k: nat)
    requires blocks != []
    ensures |blocks| == 1 ==> Root(hash, blocks) == hash(blocks[0])
    ensures |blocks| > 1 ==> 0 < k < |blocks| <= 2 * k && PowerOfTwo(k)
                             && Root(hash, blocks) == hash(Concat(Root(hash, blocks[..k]), Root(hash, blocks[k..])))
  {
    k := 0;
    var row := DigestRow(hash, LeafRow(blocks));
    if |blocks| > 1 {
      k := Split(|blocks|);
      SplitIsPower(|blocks|);
      ReduceIsTopDown(Combine(hash), row);
      ReduceIsTopDown(Combine(hash), row[..k]);
      ReduceIsTopDown(Combine(hash), row[k..]);
      assert row[..k] == DigestRow(hash, LeafRow(blocks[..k]));
      assert row[k..] == DigestRow(hash, LeafRow(blocks[k..]));
    }
  }

  /** The whole computation: hash every block, then reduce in place. */
  method MerkleRoot(hash: Hash, blocks: seq<Block>) returns (root: Digest)
    requires blocks != []
    ensures root == Root(hash, blocks)
  {
    var level := new Digest[|blocks|];
    var i := 0;
    while i < |blocks|
      invariant 0 <= i <= |blocks| && forall k :: 0 <= k < i ==> level[k] == hash(blocks[k])
    {
      level[i] := hash(blocks[i]);
      i := i + 1;
    }
    assert level[..] == DigestRow(hash, LeafRow(blocks));
    RootInPlace(hash, level);
    root := level[0];
  }
}
