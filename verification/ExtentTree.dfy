/** build_extent_tree of tools/mkdisk.c against the lookup a reader performs. */
module ExtentTree {
  import opened Basics
  import opened DiskPlan

  datatype Extent = Extent(block: nat, len: nat, start: nat)
  datatype Index = Index(block: nat, leaf: nat)

  /** The root in i_block[]: extents inline, or index records naming leaf blocks. */
  datatype Root = Inline(extents: seq<Extent>) | Indexed(index: seq<Index>)

  /** What the tool wrote to the leaf blocks. */
  type Disk = map<nat, seq<Extent>>

  // ----- the reader: last entry not greater, at depth 0 or 1 --------------------------------

  /** The last of the ascending starts that is not above i, or -1. */
  function Last(starts: seq<nat>, i: nat): (k: int)
    ensures -1 <= k < |starts| && (k >= 0 ==> starts[k] <= i)
    ensures forall j :: k < j < |starts| ==> starts[j] > i
  {
    if starts == [] then -1
    else if starts[|starts| - 1] <= i then |starts| - 1
    else Last(starts[..|starts| - 1], i)
  }

  function LastExtent(es: seq<Extent>, i: nat): (k: int)
    ensures -1 <= k < |es| && (k >= 0 ==> es[k].block <= i)
    ensures forall j :: k < j < |es| ==> es[j].block > i
  {
    var starts := seq(|es|, k requires 0 <= k < |es| => es[k].block);
    assert forall j :: 0 <= j < |es| ==> starts[j] == es[j].block;
    Last(starts, i)
  }

  function LastIndex(ix: seq<Index>, i: nat): (k: int)
    ensures -1 <= k < |ix| && (k >= 0 ==> ix[k].block <= i)
    ensures forall j :: k < j < |ix| ==> ix[j].block > i
  {
    var firsts := seq(|ix|, k requires 0 <= k < |ix| => ix[k].block);
    assert forall j :: 0 <= j < |ix| ==> firsts[j] == ix[j].block;
    Last(firsts, i)
  }

  function Find(es: seq<Extent>, i: nat): Option<nat> {
    var k := LastExtent(es, i);
    if k < 0 || i >= es[k].block + es[k].len then None
    else Some(es[k].start + (i - es[k].block))
  }

  /** The disk block of logical block i. */
  function Lookup(root: Root, disk: Disk, i: nat): Option<nat> {
    match root
    case Inline(es) => Find(es, i)
    case Indexed(ix) =>
      var k := LastIndex(ix, i);
      if k < 0 || ix[k].leaf !in disk then None else Find(disk[ix[k].leaf], i)
  }

  // ----- tiling ---------------------------------------------------------------------------------

  /** es covers [lo, hi) without gap or overlap, in order, at first + block. */
  ghost predicate Tiles(es: seq<Extent>, lo: nat, hi: nat, first: nat) {
    && (if es == [] then lo == hi else es[0].block == lo && es[|es| - 1].block + es[|es| - 1].len == hi)
    && (forall k :: 0 <= k < |es| ==> 1 <= es[k].len <= BLOCKS_PER_GROUP && es[k].start == first + es[k].block)
    && (forall j, k :: 0 <= j < |es| && 0 <= k < |es| && k == j + 1 ==> es[k].block == es[j].block + es[j].len)
  }

  lemma TilesSnoc(es: seq<Extent>, lo: nat, mid: nat, hi: nat, first: nat)
    requires Tiles(es, lo, mid, first) && mid < hi <= mid + BLOCKS_PER_GROUP
    ensures Tiles(es + [Extent(mid, hi - mid, first + mid)], lo, hi, first)
  {
    var es' := es + [Extent(mid, hi - mid, first + mid)];
    forall j, k | 0 <= j < |es'| && 0 <= k < |es'| && k == j + 1 ensures es'[k].block == es'[j].block + es'[j].len {
      if k < |es| {
        assert es[k].block == es[j].block + es[j].len;
      }
    }
  }

  lemma NothingTiles(lo: nat, first: nat)
    ensures Tiles([], lo, lo, first)
  {
  }

  lemma TilesFind(es: seq<Extent>, lo: nat, hi: nat, first: nat, i: nat)
    requires Tiles(es, lo, hi, first) && lo <= i
    ensures Find(es, i) == if i < hi then Some(first + i) else None
  {
    var k := LastExtent(es, i);
    if es != [] {
      assert k >= 0;
      if k + 1 < |es| {
        assert es[k + 1].block == es[k].block + es[k].len;
        TilesInside(es, lo, hi, first, k + 1);
      }
    }
  }

  lemma {:induction false} TilesInside(es: seq<Extent>, lo: nat, hi: nat, first: nat, k: nat)
    requires Tiles(es, lo, hi, first) && k < |es|
    ensures es[k].block + es[k].len <= hi
    decreases |es| - k
  {
    if k + 1 < |es| {
      TilesInside(es, lo, hi, first, k + 1);
      assert es[k + 1].block == es[k].block + es[k].len;
    }
  }

  /** The leaves named by the index tile [0, hi) between them. */
  ghost predicate IndexTiles(ix: seq<Index>, disk: Disk, hi: nat, first: nat) {
    && (if ix == [] then hi == 0 else ix[0].block == 0)
    && (forall k :: 0 <= k < |ix| ==> ix[k].leaf in disk && ix[k].block < Upper(ix, hi, k)
                                      && Tiles(disk[ix[k].leaf], ix[k].block, Upper(ix, hi, k), first))
  }

  function Upper(ix: seq<Index>, hi: nat, k: nat): nat
    requires k < |ix|
  {
    if k + 1 < |ix| then ix[k + 1].block else hi
  }

  lemma IndexFind(ix: seq<Index>, disk: Disk, hi: nat, first: nat, i: nat)
    requires IndexTiles(ix, disk, hi, first)
    ensures Lookup(Indexed(ix), disk, i) == if i < hi then Some(first + i) else None
  {
    if ix != [] {
      var k := LastIndex(ix, i);
      assert k >= 0;
      TilesFind(disk[ix[k].leaf], ix[k].block, Upper(ix, hi, k), first, i);
      if k + 1 < |ix| {
        UpperBound(ix, disk, hi, first, k + 1);
      }
    }
  }

  lemma {:induction false} UpperBound(ix: seq<Index>, disk: Disk, hi: nat, first: nat, k: nat)
    requires IndexTiles(ix, disk, hi, first) && k < |ix|
    ensures ix[k].block < hi
    decreases |ix| - k
  {
    if k + 1 < |ix| {
      UpperBound(ix, disk, hi, first, k + 1);
      assert Upper(ix, hi, k) == ix[k + 1].block;
    }
  }

  // ----- the builder ------------------------------------------------------------------------------

  /** Where extent number e ends. */
  function EndOf(nblocks: nat, cap: nat, e: nat): nat {
    if e * cap < nblocks then e * cap else nblocks
  }

  /** The extents from number `ei` up to `to`, as one node holds them. */
  method FillNode(first: nat, nblocks: nat, cap: nat, next: nat, ei: nat, to: nat) returns (es: seq<Extent>)
    requires 0 < cap <= BLOCKS_PER_GROUP && next == CeilDiv(nblocks, cap) && ei <= to <= next
    ensures |es| == to - ei && Tiles(es, EndOf(nblocks, cap, ei), EndOf(nblocks, cap, to), first)
  {
    hide Tiles;
    es := [];
    NothingTiles(EndOf(nblocks, cap, ei), first);
    var i := ei;
    while i < to
      invariant ei <= i <= to && |es| == i - ei
      invariant Tiles(es, EndOf(nblocks, cap, ei), EndOf(nblocks, cap, i), first)
    {
      ExtentBounds(nblocks, cap, next, i);
      TilesSnoc(es, EndOf(nblocks, cap, ei), EndOf(nblocks, cap, i), EndOf(nblocks, cap, i + 1), first);
      var len := if i == next - 1 then nblocks - i * cap else cap;
      es := es + [Extent(i * cap, len, first + i * cap)];
      i := i + 1;
    }
  }

  lemma ExtentBounds(nblocks: nat, cap: nat, next: nat, i: nat)
    requires cap > 0 && next == CeilDiv(nblocks, cap) && i < next
    ensures EndOf(nblocks, cap, i) == i * cap < nblocks
    ensures EndOf(nblocks, cap, i + 1) == if i == next - 1 then nblocks else i * cap + cap
    ensures i * cap < EndOf(nblocks, cap, i + 1) <= i * cap + cap
  {
    assert cap * (next - 1) < nblocks <= cap * next;
    assert i * cap <= (next - 1) * cap by { MulMono(i, next - 1, cap); }
    if i < next - 1 {
      MulMono(i + 1, next - 1, cap);
    }
    assert (i + 1) * cap == i * cap + cap;
  }

  lemma MulMono(a: nat, b: nat, c: nat)
    requires a <= b
    ensures a * c <= b * c
  {
  }

  /** build_extent_tree: the run [first, first + nblocks), leaf blocks taken from
      nextFree on.  ok is false where the tool exits. */
  method BuildExtentTree(first: nat, nblocks: nat, nextFree: nat)
      returns (ok: bool, root: Root, disk: Disk, next: nat)
    ensures ok <==> FitsTree(nblocks)
    ensures ok ==> next == nextFree + TreeLeaves(nblocks)
    ensures ok ==> (root.Indexed? <==> PlanLeaves(nblocks) > 0)
    ensures ok ==> forall i: nat :: Lookup(root, disk, i) == if i < nblocks then Some(first + i) else None
    ensures ok ==> if root.Inline? then |root.extents| <= 4 && Tiles(root.extents, 0, nblocks, first)
                   else |root.index| == TreeLeaves(nblocks) <= 4 && IndexTiles(root.index, disk, nblocks, first)
    ensures ok ==> forall b :: b in disk ==> nextFree <= b < next
    ensures ok && root.Indexed? ==> forall k :: 0 <= k < |root.index| ==>
              root.index[k].leaf == nextFree + k && root.index[k].leaf in disk && |disk[root.index[k].leaf]| <= PER_LEAF
  {
    LeavesAgree(nblocks);
    var cap := if nblocks > 32 then CAP else BLOCKS_PER_GROUP;
    var nExt := CeilDiv(nblocks, cap);
    ok, disk, next := true, map[], nextFree;
    EndsMeet(nblocks, cap, nExt);
    if nExt <= 4 {
      var es := FillNode(first, nblocks, cap, nExt, 0, nExt);
      root := Inline(es);
      forall i: nat ensures Lookup(root, disk, i) == if i < nblocks then Some(first + i) else None {
        TilesFind(es, 0, nblocks, first, i);
      }
      return;
    }
    var nLeaf := CeilDiv(nExt, PER_LEAF);
    if nLeaf > MAX_LEAVES {
      ok, root := false, Inline([]);
      return;
    }
    var ix: seq<Index>;
    ix, disk, next := FillLeaves(first, nblocks, nExt, nLeaf, nextFree);
    root := Indexed(ix);
    forall i: nat ensures Lookup(root, disk, i) == if i < nblocks then Some(first + i) else None {
      IndexFind(ix, disk, nblocks, first, i);
    }
  }

  lemma EndsMeet(nblocks: nat, cap: nat, next: nat)
    requires cap > 0 && next == CeilDiv(nblocks, cap)
    ensures EndOf(nblocks, cap, 0) == 0 && EndOf(nblocks, cap, next) == nblocks
  {
    assert cap * next == next * cap;
  }

  /** Number of extents in the first l leaves. */
  function Upto(nExt: nat, l: nat): nat {
    if l * PER_LEAF < nExt then l * PER_LEAF else nExt
  }

  method FillLeaves(first: nat, nblocks: nat, nExt: nat, nLeaf: nat, nextFree: nat)
      returns (ix: seq<Index>, disk: Disk, next: nat)
    requires nExt == CeilDiv(nblocks, CAP) && nLeaf == CeilDiv(nExt, PER_LEAF)
    ensures |ix| == nLeaf && next == nextFree + nLeaf && IndexTiles(ix, disk, nblocks, first)
    ensures forall b :: b in disk ==> nextFree <= b < next
    ensures forall k :: 0 <= k < |ix| ==> ix[k].leaf == nextFree + k && ix[k].leaf in disk && |disk[ix[k].leaf]| <= PER_LEAF
  {
    hide Tiles, CeilDiv, EndOf, IndexTiles;
    ix, disk, next := [], map[], nextFree;
    StartLeaves(nblocks, disk, first);
    var ei, l := 0, 0;
    while l < nLeaf
      invariant 0 <= l <= nLeaf && |ix| == l && ei == Upto(nExt, l) && next == nextFree + l
      invariant IndexTiles(ix, disk, EndOf(nblocks, CAP, ei), first)
      invariant forall b :: b in disk ==> nextFree <= b < next
      invariant forall k :: 0 <= k < |ix| ==> ix[k].leaf == nextFree + k && ix[k].leaf in disk && |disk[ix[k].leaf]| <= PER_LEAF
    {
      LeafBounds(nExt, nLeaf, l);
      var count := if nExt - ei < PER_LEAF then nExt - ei else PER_LEAF;
      var es := FillNode(first, nblocks, CAP, nExt, ei, ei + count);
      ExtentBounds(nblocks, CAP, nExt, ei);
      EndGrows(nblocks, CAP, ei + 1, ei + count);
      AddLeaf(ix, disk, EndOf(nblocks, CAP, ei), EndOf(nblocks, CAP, ei + count), first, next, es);
      ix := ix + [Index(ei * CAP, next)];
      disk := disk[next := es];
      next := next + 1;
      ei := ei + count;
      l := l + 1;
    }
    EndsMeet(nblocks, CAP, nExt);
    AllLeaves(nExt, nLeaf);
  }

  lemma StartLeaves(nblocks: nat, disk: Disk, first: nat)
    ensures EndOf(nblocks, CAP, Upto(CeilDiv(nblocks, CAP), 0)) == 0 && IndexTiles([], disk, 0, first)
  {
  }

  lemma AllLeaves(nExt: nat, nLeaf: nat)
    requires nLeaf == CeilDiv(nExt, PER_LEAF)
    ensures Upto(nExt, nLeaf) == nExt
  {
  }

  lemma EndGrows(nblocks: nat, cap: nat, a: nat, b: nat)
    requires a <= b
    ensures EndOf(nblocks, cap, a) <= EndOf(nblocks, cap, b)
  {
    MulMono(a, b, cap);
  }

  lemma LeafBounds(nExt: nat, nLeaf: nat, l: nat)
    requires nLeaf == CeilDiv(nExt, PER_LEAF) && l < nLeaf
    ensures Upto(nExt, l) == l * PER_LEAF < nExt
    ensures Upto(nExt, l + 1) == if nExt - l * PER_LEAF < PER_LEAF then nExt else l * PER_LEAF + PER_LEAF
  {
  }

  lemma AddLeaf(ix: seq<Index>, disk: Disk, mid: nat, hi: nat, first: nat, leaf: nat, es: seq<Extent>)
    requires IndexTiles(ix, disk, mid, first) && Tiles(es, mid, hi, first) && mid < hi
    requires forall k :: 0 <= k < |ix| ==> ix[k].leaf < leaf
    requires ix == [] ==> mid == 0
    ensures IndexTiles(ix + [Index(mid, leaf)], disk[leaf := es], hi, first)
  {
    var ix', disk' := ix + [Index(mid, leaf)], disk[leaf := es];
    forall k | 0 <= k < |ix'|
      ensures ix'[k].leaf in disk' && ix'[k].block < Upper(ix', hi, k)
              && Tiles(disk'[ix'[k].leaf], ix'[k].block, Upper(ix', hi, k), first)
    {
      if k < |ix| {
        assert Upper(ix', hi, k) == Upper(ix, mid, k);
      }
    }
  }
}
