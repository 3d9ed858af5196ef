/** The block allocator and the directory walk of tools/mkdisk.c in extents mode. */
module DiskImage {
  import opened Basics
  import opened DiskPlan
  import opened DiskTree
  import opened DiskRead
  import ExtentTree
  import DirBlock

  const TWO_32: int := 0x1_0000_0000

  // ----- counting bits ---------------------------------------------------------------------

  function Ones(bits: seq<bool>): (n: nat)
    ensures n <= |bits|
  {
    if bits == [] then 0 else (if bits[0] then 1 else 0) + Ones(bits[1..])
  }

  function AllOnes(maps: seq<seq<bool>>): nat {
    if maps == [] then 0 else Ones(maps[0]) + AllOnes(maps[1..])
  }

  lemma {:induction false} OnesSet(bits: seq<bool>, i: nat)
    requires i < |bits|
    ensures Ones(bits[i := true]) == Ones(bits) + if bits[i] then 0 else 1
  {
    if i > 0 {
      OnesSet(bits[1..], i - 1);
      assert bits[i := true][1..] == bits[1..][i - 1 := true];
    } else {
      assert bits[i := true][1..] == bits[1..];
    }
  }

  lemma {:induction false} AllOnesSet(maps: seq<seq<bool>>, g: nat, i: nat)
    requires g < |maps| && i < |maps[g]|
    ensures AllOnes(maps[g := maps[g][i := true]]) == AllOnes(maps) + if maps[g][i] then 0 else 1
  {
    if g == 0 {
      OnesSet(maps[0], i);
      assert maps[g := maps[g][i := true]][1..] == maps[1..];
    } else {
      AllOnesSet(maps[1..], g - 1, i);
      assert maps[g := maps[g][i := true]][1..] == maps[1..][g - 1 := maps[g][i := true]];
    }
  }

  lemma {:induction false} NoOnes(bits: seq<bool>)
    requires forall i :: 0 <= i < |bits| ==> !bits[i]
    ensures Ones(bits) == 0
  {
    if bits != [] {
      NoOnes(bits[1..]);
    }
  }

  lemma {:induction false} NoOnesAll(maps: seq<seq<bool>>)
    requires forall g, i :: 0 <= g < |maps| && 0 <= i < |maps[g]| ==> !maps[g][i]
    ensures AllOnes(maps) == 0
  {
    if maps != [] {
      NoOnes(maps[0]);
      forall g, i | 0 <= g < |maps[1..]| && 0 <= i < |maps[1..][g]| ensures !maps[1..][g][i] {
        assert maps[1..][g] == maps[g + 1];
      }
      NoOnesAll(maps[1..]);
    }
  }

  // ----- marks that hit a bit already set --------------------------------------------------

  function Repeats(log: seq<nat>): (n: nat)
    ensures n <= |log|
  {
    if log == [] then 0
    else Repeats(log[..|log| - 1]) + if log[|log| - 1] in log[..|log| - 1] then 1 else 0
  }

  predicate Distinct(log: seq<nat>) {
    forall i, j :: 0 <= i < j < |log| ==> log[i] != log[j]
  }

  lemma {:induction false} RepeatsIff(log: seq<nat>)
    ensures Repeats(log) == 0 <==> Distinct(log)
  {
    if log != [] {
      var n := |log| - 1;
      RepeatsIff(log[..n]);
      if Distinct(log[..n]) && log[n] !in log[..n] {
        forall i, j | 0 <= i < j < |log| ensures log[i] != log[j] {
          assert log[i] == log[..n][i];
        }
      } else if log[n] in log[..n] {
        var k :| 0 <= k < n && log[..n][k] == log[n];
        assert log[k] == log[n];
      } else {
        var i, j :| 0 <= i < j < n && log[..n][i] == log[..n][j];
        assert log[i] == log[j];
      }
    }
  }

  function Range(from: nat, n: nat): (r: seq<nat>)
    ensures |r| == n && forall i :: 0 <= i < n ==> r[i] == from + i
  {
    seq(n, i => from + i)
  }

  lemma RunOn(log: seq<nat>, from: nat, a: nat, b: nat)
    ensures log + Range(from, a) + Range(from + a, b) == log + Range(from, a + b)
  {
    RangeConcat(from, a, b);
    hide Range;
    assert log + Range(from, a) + Range(from + a, b) == log + (Range(from, a) + Range(from + a, b));
  }

  lemma NothingMore(log: seq<nat>, from: nat)
    ensures log + Range(from, 0) == log
  {
  }

  lemma RangeConcat(from: nat, a: nat, b: nat)
    ensures Range(from, a) + Range(from + a, b) == Range(from, a + b)
  {
  }

  /** The metadata blocks of groups 1 .. groups-1. */
  function GroupMeta(groups: nat): (r: seq<nat>) {
    if groups <= 1 then []
    else GroupMeta(groups - 1) + Range((groups - 1) * BLOCKS_PER_GROUP, GN_META_BLOCKS)
  }

  /** All metadata, in the order it is marked. */
  function Meta(groups: nat): seq<nat> {
    Range(0, BLK_DATA_START) + GroupMeta(groups)
  }

  /** The metadata: the first 68 blocks of the partition and the first three of
      every further group. */
  lemma {:induction false} MetaIs(groups: nat, b: nat)
    requires groups >= 1
    ensures b in Meta(groups) <==> b < 68 || exists g :: 1 <= g < groups && g * 32768 <= b < g * 32768 + 3
  {
    if groups >= 2 {
      MetaIs(groups - 1, b);
      var g := groups - 1;
      assert Meta(groups) == Meta(g) + Range(g * BLOCKS_PER_GROUP, GN_META_BLOCKS);
      assert b in Range(g * BLOCKS_PER_GROUP, GN_META_BLOCKS) <==> g * 32768 <= b < g * 32768 + 3 by {
        InRun(g * BLOCKS_PER_GROUP, GN_META_BLOCKS, b);
      }
    } else {
      InRun(0, BLK_DATA_START, b);
      assert GroupMeta(1) == [];
    }
  }

  lemma InRun(from: nat, n: nat, b: nat)
    ensures b in Range(from, n) <==> from <= b < from + n
  {
    if from <= b < from + n {
      assert Range(from, n)[b - from] == b;
    }
  }

  predicate Increasing(s: seq<nat>) {
    forall i, j :: 0 <= i < j < |s| ==> s[i] < s[j]
  }

  lemma {:induction false} GroupMetaShape(groups: nat)
    ensures Increasing(GroupMeta(groups))
    ensures forall b :: b in GroupMeta(groups) ==> BLOCKS_PER_GROUP <= b < groups * BLOCKS_PER_GROUP
    ensures groups >= 2 ==> BLOCKS_PER_GROUP in GroupMeta(groups)
  {
    if groups >= 2 {
      GroupMetaShape(groups - 1);
      var a, b := GroupMeta(groups - 1), Range((groups - 1) * BLOCKS_PER_GROUP, GN_META_BLOCKS);
      if groups == 2 {
        assert (a + b)[|a|] == BLOCKS_PER_GROUP;
      } else {
        var k :| 0 <= k < |a| && a[k] == BLOCKS_PER_GROUP;
        assert (a + b)[k] == BLOCKS_PER_GROUP;
      }
      forall i, j | 0 <= i < j < |a + b| ensures (a + b)[i] < (a + b)[j] {
        if i < |a| <= j {
          assert a[i] in a;
        }
      }
    }
  }

  /** Metadata followed by the first n data blocks repeats no block exactly when
      the data ends inside group 0. */
  lemma DistinctIff(groups: nat, n: nat)
    requires groups >= 2
    ensures Distinct(Meta(groups) + Range(BLK_DATA_START, n)) <==> BLK_DATA_START + n <= BLOCKS_PER_GROUP
  {
    GroupMetaShape(groups);
    var m, d := GroupMeta(groups), Range(BLK_DATA_START, n);
    var all := Meta(groups) + d;
    if BLK_DATA_START + n <= BLOCKS_PER_GROUP {
      forall i, j | 0 <= i < j < |all| ensures all[i] != all[j] {
        if BLK_DATA_START <= i < BLK_DATA_START + |m| {
          assert all[i] == m[i - BLK_DATA_START] && all[i] in m;
        }
        if BLK_DATA_START <= j < BLK_DATA_START + |m| {
          assert all[j] == m[j - BLK_DATA_START] && all[j] in m;
        }
      }
    } else {
      var k :| 0 <= k < |m| && m[k] == BLOCKS_PER_GROUP;
      assert all[BLK_DATA_START + k] == BLOCKS_PER_GROUP;
      var e := BLOCKS_PER_GROUP - BLK_DATA_START;
      assert all[BLK_DATA_START + |m| + e] == d[e] == BLOCKS_PER_GROUP;
    }
  }

  // ----- the allocator -------------------------------------------------------------------------

  predicate Shape(maps: seq<seq<bool>>, total: nat) {
    && total == |maps| * BLOCKS_PER_GROUP
    && (forall g :: 0 <= g < |maps| ==> |maps[g]| == BLOCKS_PER_GROUP)
  }

  function Bit(maps: seq<seq<bool>>, total: nat, b: nat): bool
    requires Shape(maps, total) && b < total
  {
    maps[b / BLOCKS_PER_GROUP][b % BLOCKS_PER_GROUP]
  }

  /** The bitmaps show exactly the logged blocks, and count them once each. */
  ghost predicate Reflects(maps: seq<seq<bool>>, total: nat, log: seq<nat>) {
    && Shape(maps, total)
    && (forall b :: b in log ==> b < total)
    && (forall b :: 0 <= b < total ==> (Bit(maps, total, b) <==> b in log))
    && AllOnes(maps) + Repeats(log) == |log|
  }

  function Mark(maps: seq<seq<bool>>, total: nat, b: nat): (r: seq<seq<bool>>)
    requires Shape(maps, total) && b < total
    ensures Shape(r, total)
  {
    var g, off := b / BLOCKS_PER_GROUP, b % BLOCKS_PER_GROUP;
    maps[g := maps[g][off := true]]
  }

  lemma SameBit(a: nat, b: nat)
    ensures a / BLOCKS_PER_GROUP == b / BLOCKS_PER_GROUP && a % BLOCKS_PER_GROUP == b % BLOCKS_PER_GROUP ==> a == b
  {
  }

  lemma MarkReflects(maps: seq<seq<bool>>, total: nat, log: seq<nat>, b: nat)
    requires Reflects(maps, total, log) && b < total
    ensures Reflects(Mark(maps, total, b), total, log + [b])
  {
    var maps' := Mark(maps, total, b);
    AllOnesSet(maps, b / BLOCKS_PER_GROUP, b % BLOCKS_PER_GROUP);
    assert (log + [b])[..|log|] == log;
    assert Bit(maps, total, b) <==> b in log;
    forall x | 0 <= x < total ensures Bit(maps', total, x) <==> x in log + [b] {
      SameBit(x, b);
      assert Bit(maps, total, x) <==> x in log;
    }
  }

  lemma {:induction false} OnesBound(maps: seq<seq<bool>>)
    requires forall g :: 0 <= g < |maps| ==> |maps[g]| == BLOCKS_PER_GROUP
    ensures AllOnes(maps) <= |maps| * BLOCKS_PER_GROUP
    ensures FreeSum(maps) == |maps| * BLOCKS_PER_GROUP - AllOnes(maps)
  {
    if maps != [] {
      forall g | 0 <= g < |maps[1..]| ensures |maps[1..][g]| == BLOCKS_PER_GROUP {
        assert maps[1..][g] == maps[g + 1];
      }
      OnesBound(maps[1..]);
    }
  }

  /** The group descriptors' free counts added up. */
  function FreeSum(maps: seq<seq<bool>>): int {
    if maps == [] then 0 else |maps[0]| - Ones(maps[0]) + FreeSum(maps[1..])
  }

  /** The running counter agrees with the bitmaps, and so with the sum of the
      group descriptors, exactly when no block was marked twice. */
  lemma CountersAgreeIff(maps: seq<seq<bool>>, total: nat, log: seq<nat>, free: int)
    requires Reflects(maps, total, log) && free == (total - |log|) % TWO_32
    requires total <= MAX_GROUPS * BLOCKS_PER_GROUP && |log| < TWO_32 - total
    ensures free + AllOnes(maps) == total <==> Distinct(log)
    ensures free == FreeSum(maps) <==> Distinct(log)
  {
    RepeatsIff(log);
    OnesBound(maps);
    if total >= |log| {
      assert free == total - |log|;
    } else {
      assert free == total - |log| + TWO_32;
    }
  }

  /** The writer's position. */
  datatype Position = Position(block: nat, inode: nat, disk: Disk, log: seq<nat>)

  /** From a to b the next `need` blocks were taken in order, the next `below`
      inode numbers given out, and only `ino` and those inodes written. */
  ghost predicate Grew(a: Position, b: Position, need: nat, below: nat, ino: nat) {
    && b.block == a.block + need && b.log == a.log + Range(a.block, need) && b.inode == a.inode + below
    && Extends(a.disk, b.disk) && OnlyNew(a.disk, b.disk, ino, a.inode)
  }

  class Image {
    const total: nat
    var nextFree: nat
    /** uint32_t: wraps at 2^32. */
    var freeBlocks: int
    /** One bit per block, one row per group. */
    var bitmaps: seq<seq<bool>>
    /** current_free_inode. */
    var nextInode: nat
    /** What was written so far besides bitmaps and counters. */
    var disk: Disk
    /** Every block marked so far, in order. */
    ghost var log: seq<nat>

    ghost predicate Valid()
      reads this
    {
      && Reflects(bitmaps, total, log)
      && freeBlocks == (total - |log|) % TWO_32
    }

    ghost function At(): Position
      reads this
    {
      Position(nextFree, nextInode, disk, log)
    }

    /** Blocks and inodes not handed out yet were not written. */
    ghost predicate Tidy()
      reads this
    {
      Unwritten(disk, nextFree, nextInode)
    }

    /** write_ext4_partition up to the metadata marks. */
    constructor (size: nat)
      requires size % BLOCKS_PER_GROUP == 0 && 0 < size <= MAX_GROUPS * BLOCKS_PER_GROUP
      ensures Valid() && total == size && nextFree == BLK_DATA_START && log == [] && nextInode == 11
      ensures disk == Disk(map[], map[], map[], map[])
    {
      nextInode, disk := 11, Disk(map[], map[], map[], map[]);
      total := size;
      nextFree := BLK_DATA_START;
      freeBlocks := size;
      bitmaps := seq(size / BLOCKS_PER_GROUP, g => seq(BLOCKS_PER_GROUP, i => false));
      log := [];
      new;
      NoOnesAll(bitmaps);
    }

    /** mark_block_used: false stands for exit(1). */
    method MarkBlockUsed(block: nat) returns (ok: bool)
      requires Valid()
      modifies this`bitmaps, this`freeBlocks, this`log
      ensures Valid() && (ok <==> block < total)
      ensures log == old(log) + if ok then [block] else []
    {
      if block >= total {
        return false;
      }
      MarkReflects(bitmaps, total, log, block);
      hide Reflects, Shape;
      var g, off := block / BLOCKS_PER_GROUP, block % BLOCKS_PER_GROUP;
      bitmaps := Mark(bitmaps, total, block);
      freeBlocks := (freeBlocks - 1) % TWO_32;
      log := log + [block];
      return true;
    }

    /** Mark a run of blocks, as the loops over metadata do. */
    method MarkRun(from: nat, n: nat)
      requires Valid() && from + n <= total
      modifies this`bitmaps, this`freeBlocks, this`log
      ensures Valid() && log == old(log) + Range(from, n)
    {
      hide Reflects;
      var i := 0;
      while i < n
        invariant 0 <= i <= n && Valid() && log == old(log) + Range(from, i)
      {
        var ok := MarkBlockUsed(from + i);
        RangeConcat(from, i, 1);
        i := i + 1;
      }
    }

    method MarkMetadata()
      requires Valid() && log == [] && total % BLOCKS_PER_GROUP == 0 && total >= BLOCKS_PER_GROUP
      modifies this`bitmaps, this`freeBlocks, this`log
      ensures Valid() && log == Meta(total / BLOCKS_PER_GROUP)
    {
      hide Valid, Range;
      MarkRun(0, 4);
      MarkRun(4, 64);
      RangeConcat(0, 4, 64);
      var g := 1;
      while g < total / BLOCKS_PER_GROUP
        invariant 1 <= g <= total / BLOCKS_PER_GROUP && Valid() && log == Meta(g)
      {
        MarkRun(g * BLOCKS_PER_GROUP, GN_META_BLOCKS);
        g := g + 1;
      }
    }

    /** `next_free_block++` and mark, n times; stops at the end of the partition. */
    method Alloc(n: nat) returns (ok: bool)
      requires Valid()
      modifies this`bitmaps, this`freeBlocks, this`log, this`nextFree
      ensures Valid() && (ok <==> n == 0 || old(nextFree) + n <= total)
      ensures ok ==> nextFree == old(nextFree) + n && log == old(log) + Range(old(nextFree), n)
    {
      hide Reflects;
      var i := 0;
      while i < n
        invariant 0 <= i <= n && Valid() && nextFree == old(nextFree) + i && (i == 0 || nextFree <= total)
        invariant log == old(log) + Range(old(nextFree), i)
      {
        var b := nextFree;
        nextFree := nextFree + 1;
        ok := MarkBlockUsed(b);
        if !ok {
          return false;
        }
        RangeConcat(old(nextFree), i, 1);
        i := i + 1;
      }
      return true;
    }

    /** There is room for n more blocks. */
    predicate Room(n: nat)
      reads this
    {
      n == 0 || nextFree + n <= total
    }

    /** write_file_to_inode in extents mode: the data run, then the leaf blocks,
        then the inode. */
    method WriteFile(size: nat, ino: nat, ghost parent: nat) returns (ok: bool)
      requires Valid() && Tidy() && ino < nextInode && ino !in disk.inodes
      modifies this
      ensures Valid() && (ok <==> FitsTree(DataBlocks(size)) && old(Room(Need(File(size)))))
      ensures ok ==> Tidy() && Grew(old(At()), At(), Need(File(size)), 0, ino) && Stored(disk, ino, parent, File(size))
    {
      hide Reflects, TreeLeaves, FileAt, ExtentTree.Lookup, ExtentTree.Tiles, ExtentTree.IndexTiles, DataBlocks, Range;
      var blocks := DataBlocks(size);
      var first := nextFree;
      ok := Alloc(blocks);
      if !ok {
        return;
      }
      var root, leaves, next;
      ok, root, leaves, next := ExtentTree.BuildExtentTree(first, blocks, nextFree);
      if !ok {
        return;
      }
      ok := Alloc(next - nextFree);
      if ok {
        RunOn(old(log), old(nextFree), blocks, TreeLeaves(blocks));
        FileWritten(disk, ino, size, first, first + blocks, next, nextInode, root, leaves);
        disk := WithFile(disk, ino, size, first, blocks, root, leaves);
      }
    }

    /** One visible child: recurse into a directory, write out a file. */
    method WriteNode(n: Node, ino: nat, parent: nat) returns (ok: bool)
      requires Valid() && Tidy() && Plain(n) && ino < nextInode && ino !in disk.inodes && parent < TWO_32
      requires nextInode + Below(n) < TWO_32
      modifies this
      ensures Valid() && (ok <==> Encodable(n) && DirsFit(n) && old(Room(Need(n))))
      ensures ok ==> Tidy() && Grew(old(At()), At(), Need(n), Below(n), ino) && Stored(disk, ino, parent, n)
      decreases n, 2
    {
      hide Reflects, Stored, Grew;
      match n
      case File(size) => ok := WriteFile(size, ino, parent);
      case Dir(es) => ok := Populate(es, ino, parent);
    }

    /** write_directory_inode: one block, so the extent sits in the inode. */
    method WriteDirInode(ino: nat, block: nat)
      requires Tidy() && ino < nextInode && ino !in disk.inodes
      modifies this`disk
      ensures Tidy() && Extends(old(disk), disk) && disk == old(disk).(inodes := disk.inodes)
      ensures disk.inodes.Keys == old(disk.inodes.Keys) + {ino}
      ensures var i := disk.inodes[ino]; i.dir && LeavesThere(disk, i.root) && BlockOf(disk, ino, 0) == Some(block)
    {
      LeavesAgree(1);
      var ok, root, leaves, next := ExtentTree.BuildExtentTree(block, 1, nextFree);
      assert root.Inline? && ExtentTree.Lookup(root, leaves, 0) == Some(block);
      disk := disk.(inodes := disk.inodes[ino := Inode(true, BLOCK_SIZE, root)]);
    }

    /** The readdir loop: the visible entries get the next inode numbers. */
    method Number(es: seq<Entry>) returns (cs: seq<DirBlock.Child>)
      requires nextInode + Visible(es) < TWO_32
      modifies this`nextInode
      ensures cs == Children(es, old(nextInode)) && nextInode == old(nextInode) + Visible(es)
      ensures InOrder(cs, es, old(nextInode))
      ensures forall k :: 0 <= k < |cs| ==> DirBlock.Storable(cs[k])
    {
      cs := [];
      var i := 0;
      while i < |es|
        invariant 0 <= i <= |es| && cs == Children(es[..i], old(nextInode)) && nextInode == NumberOf(es, old(nextInode), i)
        invariant forall k :: 0 <= k < |cs| ==> DirBlock.Storable(cs[k])
      {
        ChildrenSnoc(es, old(nextInode), i);
        VisibleSnoc(es, i);
        VisibleMono(es, i + 1);
        if !Hidden(es[i]) {
          cs := cs + [DirBlock.Child(nextInode, Kind(es[i].node), es[i].name)];
          nextInode := nextInode + 1;
        }
        i := i + 1;
      }
      assert es[..i] == es;
      ChildrenInOrder(es, old(nextInode));
    }

    /** The first half of populate_directory: block, inode and records of the
        directory itself.  A record that would not lie inside the block ends it. */
    method WriteDir(es: seq<Entry>, self: nat, parent: nat) returns (ok: bool)
      requires Valid() && Tidy() && self < nextInode && self !in disk.inodes && parent < TWO_32
      requires nextInode + Visible(es) < TWO_32
      modifies this
      ensures Valid() && (ok <==> Fits(es) && old(Room(1)))
      ensures ok && PlainAll(es) ==> ListedIn(disk, self, parent, es)
      ensures ok ==> Tidy() && Grew(old(At()), At(), 1, Visible(es), self) && DirAt(disk, self, parent, es, old(nextInode))
                     && forall k :: k in disk.inodes ==> k < old(nextInode)
    {
      hide Reflects, Range, DirHolds, BlockOf, LeavesThere, PlainAll, ListedIn, InOrder, Children, Visible, Fits;
      var b := nextFree;
      ok := Alloc(1);
      if !ok {
        return;
      }
      WriteDirInode(self, b);
      ghost var d1 := disk;
      var cs := Number(es);
      var block;
      ok, block := DirContents(es, self, parent, old(nextInode), cs);
      if ok {
        DirWritten(d1, self, parent, es, old(nextInode), b, block);
        disk := disk.(dirs := disk.dirs[b := block]);
        ExtendsTrans(old(disk), d1, disk);
        DirListed(disk, self, parent, es, old(nextInode));
      }
    }

    /** populate_directory: the directory itself, then every visible child. */
    method Populate(es: seq<Entry>, self: nat, parent: nat) returns (ok: bool)
      requires Valid() && Tidy() && PlainAll(es) && self < nextInode && self !in disk.inodes && parent < TWO_32
      requires nextInode + Visible(es) + BelowAll(es) < TWO_32
      modifies this
      ensures Valid()
      ensures ok <==> EncodableAll(es) && Fits(es) && DirsFitAll(es) && old(Room(1 + NeedAll(es)))
      ensures ok ==> Tidy() && Grew(old(At()), At(), 1 + NeedAll(es), Visible(es) + BelowAll(es), self)
                     && Stored(disk, self, parent, Dir(es)) && Readable(disk, self, parent, Dir(es))
      decreases es, 1
    {
      hide Valid, Range, Stored, DirAt, Unwritten, Grew, EncodableAll, DirsFitAll, NeedAll, BelowAll, Fits, Visible, Readable, Records, Lists;
      var first := nextInode;
      ok := WriteDir(es, self, parent);
      ghost var mid := At();
      if ok {
        Advanced(old(At()), mid, 1, Visible(es), self);
        ok := WriteChildren(es, self, parent, first);
        if ok {
          ReadsBack(disk, self, parent, Dir(es));
          GrewOn(old(At()), mid, At(), 1, Visible(es), NeedAll(es), BelowAll(es), self);
        }
      }
    }

    /** The second half: every visible child in turn. */
    method WriteChildren(es: seq<Entry>, self: nat, parent: nat, first: nat) returns (ok: bool)
      requires Valid() && Tidy() && PlainAll(es) && self < TWO_32 && nextInode == first + Visible(es)
      requires nextInode + BelowAll(es) < TWO_32
      requires DirAt(disk, self, parent, es, first) && forall k :: k in disk.inodes ==> k < first
      modifies this
      ensures Valid() && (ok <==> EncodableAll(es) && DirsFitAll(es) && old(Room(NeedAll(es))))
      ensures ok ==> Tidy() && Stored(disk, self, parent, Dir(es))
                     && Grew(old(At()).(inode := first), At(), NeedAll(es), Visible(es) + BelowAll(es), self)
      decreases es, 0
    {
      hide Valid, Range, Stored, Extends, DirAt, Unwritten;
      var i := 0;
      var c := first;
      hide PlainAll, EncodableAll, DirsFitAll, NeedAll, BelowAll, Plain, Encodable, DirsFit, Need, Below, StoredUpTo, Visible;
      NothingYet(disk, self, es, first);
      NothingMore(log, nextFree);
      ExtendsSelf(disk);
      while i < |es|
        invariant 0 <= i <= |es| && Valid() && Tidy() && PlainAll(es[i..])
        invariant nextFree + NeedAll(es[i..]) == old(nextFree) + NeedAll(es)
        invariant nextInode + BelowAll(es[i..]) == old(nextInode) + BelowAll(es) && nextInode >= old(nextInode)
        invariant EncodableAll(es) <==> EncodableAll(es[i..])
        invariant DirsFitAll(es) <==> DirsFitAll(es[i..])
        invariant nextFree == old(nextFree) || old(nextFree) <= nextFree <= total
        invariant log == old(log) + Range(old(nextFree), nextFree - old(nextFree))
        invariant c == NumberOf(es, first, i) && Extends(old(disk), disk)
        invariant DirAt(disk, self, parent, es, first) && StoredUpTo(disk, self, es, first, i)
        invariant forall k :: k in disk.inodes ==> k < c || k >= first + Visible(es)
        invariant forall k :: k in disk.inodes ==> k in old(disk.inodes) || k >= first
      {
        Left(es, i);
        VisibleSnoc(es, i);
        if !Hidden(es[i]) {
          VisibleMono(es, i + 1);
          ghost var before, d := At(), disk;
          ok := WriteNode(es[i].node, c, self);
          if !ok {
            return false;
          }
          RunOn(old(log), old(nextFree), before.block - old(nextFree), nextFree - before.block);
          Advanced(before, At(), Need(es[i].node), Below(es[i].node), c);
          OneMoreStored(old(disk), d, disk, self, parent, es, first, i);
          c := c + 1;
        } else {
          SkipHidden(disk, self, es, first, i);
        }
        i := i + 1;
      }
      NothingLeft(es);
      assert OnlyNew(old(disk), disk, self, first);
      WholeDir(disk, self, parent, es, first);
      return true;
    }

    /** The per-group free count that goes into the group descriptor. */
    method GroupFree(g: nat) returns (free: nat)
      requires Valid() && g < |bitmaps|
      ensures free == BLOCKS_PER_GROUP - Ones(bitmaps[g]) && free < 0x1_0000
    {
      free := 0;
      var i := 0;
      while i < BLOCKS_PER_GROUP
        invariant 0 <= i <= BLOCKS_PER_GROUP && free + Ones(bitmaps[g]) == i + Ones(bitmaps[g][i..])
        invariant free <= i
      {
        assert bitmaps[g][i..][1..] == bitmaps[g][i + 1..];
        if !bitmaps[g][i] {
          free := free + 1;
        }
        i := i + 1;
      }
    }
  }

  lemma Advanced(a: Position, b: Position, need: nat, below: nat, ino: nat)
    requires Grew(a, b, need, below, ino)
    ensures b.block == a.block + need && b.log == a.log + Range(a.block, need) && b.inode == a.inode + below
    ensures Extends(a.disk, b.disk) && OnlyNew(a.disk, b.disk, ino, a.inode)
  {
  }

  lemma GrewOn(a: Position, b: Position, c: Position, n1: nat, v: nat, n2: nat, w: nat, ino: nat)
    requires Grew(a, b, n1, v, ino) && Grew(b.(inode := a.inode), c, n2, v + w, ino)
    ensures Grew(a, c, n1 + n2, v + w, ino)
  {
    RunOn(a.log, a.block, n1, n2);
    ExtendsTrans(a.disk, b.disk, c.disk);
  }

  /** The block of a directory, if its records fit. */
  method DirContents(es: seq<Entry>, self: nat, parent: nat, ghost first: nat, cs: seq<DirBlock.Child>) returns (inside: bool, block: seq<Byte>)
    requires cs == Children(es, first) && self < TWO_32 && parent < TWO_32
    requires forall k :: 0 <= k < |cs| ==> DirBlock.Storable(cs[k])
    ensures inside <==> Fits(es)
    ensures inside ==> DirHolds(block, self, parent, es, first)
  {
    var buf := new Byte[DirBlock.SIZE];
    inside := DirBlock.EncodeDirectory(buf, self, parent, cs);
    RecordsSize(self, parent, es, first, |es|);
    assert es[..|es|] == es;
    block := buf[..];
  }

  /** Plan, then write.  The tool finishes with every write inside its buffer if
      and only if the plan is accepted, every file can be encoded and every
      directory fits its block.  Then the writer took exactly the blocks the
      planner counted, so it never reached the end of the partition, and the whole
      tree can be read back from inode 2; and whether the image keeps data off
      metadata and its counters consistent is decided by one number. */
  method BuildImage(root: Node) returns (img: Image?, ok: bool)
    requires root.Dir?
    ensures ok <==> Planned(root).Some? && Encodable(root) && DirsFit(root)
    ensures ok ==> img != null && fresh(img) && img.Valid() && img.total == Planned(root).value
    ensures ok <==> && Plain(root) && Narrow(root) && Below(root) <= 1013 && 68 + Need(root) <= 32768 + 127 * 32765
                    && Encodable(root) && DirsFit(root)
    ensures ok ==> Readable(img.disk, 2, 2, root) && img.nextInode == 11 + Below(root) <= 1024
    ensures ok ==> img.log == Meta(img.total / BLOCKS_PER_GROUP) + Range(BLK_DATA_START, Need(root))
                   && img.nextFree == BLK_DATA_START + Need(root) <= img.total
    ensures ok ==> (Distinct(img.log) <==> BLK_DATA_START + Need(root) <= BLOCKS_PER_GROUP)
    ensures ok ==> (img.freeBlocks == FreeSum(img.bitmaps) <==> BLK_DATA_START + Need(root) <= BLOCKS_PER_GROUP)
  {
    hide Reflects, PlanNode, PartitionBlocks, Stored, Extends, Readable, Narrow;
    PlannedIff(root);
    var planned := Planned(root);
    if planned.None? {
      return null, false;
    }
    PlanFits(root);
    PlannedIsPlain(root, Plan(0, 0, 0));
    var image := new Image(planned.value);
    image.MarkMetadata();
    ok := image.Populate(root.entries, 2, 2);
    img := image;
    if ok {
      Counted(image, Need(root));
    }
  }

  lemma Counted(image: Image, n: nat)
    requires image.Valid() && image.total % BLOCKS_PER_GROUP == 0 && image.total <= MAX_GROUPS * BLOCKS_PER_GROUP
    requires image.total >= 2 * BLOCKS_PER_GROUP && BLK_DATA_START + n <= image.total
    requires image.log == Meta(image.total / BLOCKS_PER_GROUP) + Range(BLK_DATA_START, n)
    ensures Distinct(image.log) <==> BLK_DATA_START + n <= BLOCKS_PER_GROUP
    ensures image.freeBlocks == FreeSum(image.bitmaps) <==> BLK_DATA_START + n <= BLOCKS_PER_GROUP
  {
    hide Reflects;
    var groups := image.total / BLOCKS_PER_GROUP;
    MetaSize(groups);
    DistinctIff(groups, n);
    CountersAgreeIff(image.bitmaps, image.total, image.log, image.freeBlocks);
  }

  lemma {:induction false} MetaSize(groups: nat)
    ensures |Meta(groups)| <= BLK_DATA_START + GN_META_BLOCKS * groups
  {
    if groups >= 2 {
      MetaSize(groups - 1);
    }
  }
}
