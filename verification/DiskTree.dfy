/** A directory tree on the disk image: which directories fit their block, and
    what it means that a tree can be read back from an inode. */
module DiskTree {
  import opened Basics
  import opened DiskPlan
  import ExtentTree
  import DirBlock

  // ----- directories that fit --------------------------------------------------------------

  function RecordBytes(es: seq<Entry>): nat {
    if es == [] then 0
    else (if Hidden(es[0]) then 0 else DirBlock.RecLen(|es[0].name|)) + RecordBytes(es[1..])
  }

  /** The records of the directory fit its one block. */
  predicate Fits(es: seq<Entry>) {
    24 + RecordBytes(es) <= DirBlock.SIZE
  }

  /** So do those of every visible directory below n. */
  predicate DirsFit(n: Node)
    decreases n, 1
  {
    n.Dir? ==> Fits(n.entries) && DirsFitAll(n.entries)
  }

  predicate DirsFitAll(es: seq<Entry>)
    decreases es, 0
  {
    es == [] || ((Hidden(es[0]) || DirsFit(es[0].node)) && DirsFitAll(es[1..]))
  }

  function Kind(n: Node): nat {
    if n.Dir? then 2 else 1
  }

  /** The visible entries, numbered from `first` on. */
  function Children(es: seq<Entry>, first: nat): (cs: seq<DirBlock.Child>)
    ensures |cs| == Visible(es)
  {
    if es == [] then []
    else if Hidden(es[0]) then Children(es[1..], first)
    else [DirBlock.Child(first, Kind(es[0].node), es[0].name)] + Children(es[1..], first + 1)
  }

  function NumberOf(es: seq<Entry>, first: nat, j: nat): nat
    requires j <= |es|
  {
    first + Visible(es[..j])
  }

  lemma {:induction false} VisibleSnoc(es: seq<Entry>, j: nat)
    requires j < |es|
    ensures Visible(es[..j + 1]) == Visible(es[..j]) + if Hidden(es[j]) then 0 else 1
  {
    if j == 0 {
      assert es[..1][1..] == [];
    } else {
      VisibleSnoc(es[1..], j - 1);
      assert es[..j + 1][1..] == es[1..][..j] && es[..j][1..] == es[1..][..j - 1];
    }
  }

  lemma {:induction false} ChildrenSnoc(es: seq<Entry>, first: nat, j: nat)
    requires j < |es|
    ensures Children(es[..j + 1], first) == Children(es[..j], first)
            + if Hidden(es[j]) then [] else [DirBlock.Child(NumberOf(es, first, j), Kind(es[j].node), es[j].name)]
  {
    if j == 0 {
      assert es[..1][1..] == [];
    } else {
      var f := if Hidden(es[0]) then first else first + 1;
      ChildrenSnoc(es[1..], f, j - 1);
      assert es[..j + 1][1..] == es[1..][..j] && es[..j][1..] == es[1..][..j - 1];
    }
  }

  lemma OneMore(self: nat, parent: nat, cs: seq<DirBlock.Child>, c: DirBlock.Child)
    ensures DirBlock.Off(DirBlock.Records(self, parent, cs + [c]), 3 + |cs|)
            == DirBlock.Off(DirBlock.Records(self, parent, cs), 2 + |cs|) + DirBlock.RecLen(|c.name|)
  {
    DirBlock.OffStep(self, parent, cs + [c], |cs|);
    assert (cs + [c])[..|cs|] == cs && (cs + [c])[..|cs| + 1] == cs + [c];
  }

  lemma NoneYet(self: nat, parent: nat)
    ensures DirBlock.Off(DirBlock.Records(self, parent, []), 2) == 24
  {
    DirBlock.Fits(self, parent);
    assert DirBlock.Records(self, parent, []) == [] + [DirBlock.Record(self, 12, 2, [46])] + [DirBlock.Record(parent, 12, 2, [46, 46])];
  }

  /** The size of the records is known before anything is numbered. */
  lemma {:induction false} RecordsSize(self: nat, parent: nat, es: seq<Entry>, first: nat, j: nat)
    requires j <= |es|
    ensures DirBlock.Off(DirBlock.Records(self, parent, Children(es[..j], first)), 2 + Visible(es[..j])) == 24 + RecordBytes(es[..j])
    decreases j
  {
    if j == 0 {
      NoneYet(self, parent);
    } else {
      RecordsSize(self, parent, es, first, j - 1);
      ChildrenSnoc(es, first, j - 1);
      VisibleSnoc(es, j - 1);
      BytesSnoc(es, j - 1);
      hide Children, Visible, RecordBytes, DirBlock.Off, DirBlock.Records, DirBlock.RecLen;
      var cs := Children(es[..j - 1], first);
      if Hidden(es[j - 1]) {
        assert cs + [] == cs;
      } else {
        OneMore(self, parent, cs, DirBlock.Child(NumberOf(es, first, j - 1), Kind(es[j - 1].node), es[j - 1].name));
      }
    }
  }

  lemma {:induction false} BytesSnoc(es: seq<Entry>, j: nat)
    requires j < |es|
    ensures RecordBytes(es[..j + 1]) == RecordBytes(es[..j]) + if Hidden(es[j]) then 0 else DirBlock.RecLen(|es[j].name|)
  {
    if j == 0 {
      assert es[..1][1..] == [];
    } else {
      BytesSnoc(es[1..], j - 1);
      assert es[..j + 1][1..] == es[1..][..j] && es[..j][1..] == es[1..][..j - 1];
    }
  }

  // ----- a tree that is planned and does not fit ---------------------------------------------

  function FileNamed(k: nat): Entry
    requires k < 256
  {
    Entry([97, 97, 97, 97, 97, 97, 97 + k / 16, 97 + k % 16], File(0))
  }

  /** Empty files with k different names of eight letters. */
  function Files(k: nat): (es: seq<Entry>)
    requires k <= 256
    ensures |es| == k && forall j :: 0 <= j < k ==> es[j] == FileNamed(k - 1 - j)
  {
    if k == 0 then [] else [FileNamed(k - 1)] + Files(k - 1)
  }

  lemma {:induction false} FilesPlan(k: nat, p: Plan)
    requires k <= 256
    ensures Visible(Files(k)) == k && RecordBytes(Files(k)) == 16 * k && EncodableAll(Files(k))
    ensures PlanEntries(Files(k), p) == Some(Plan(p.inodes + k, p.data, p.leaves))
  {
    if k > 0 {
      assert Files(k)[1..] == Files(k - 1);
      FilesPlan(k - 1, Plan(p.inodes + 1, p.data, p.leaves));
      assert DataBlocks(0) == 0 && PlanLeaves(0) == 0;
    }
  }

  /** 256 such files are as many as the planner accepts; their records take 4120
      bytes of a block of 4096. */
  lemma Overfull() returns (root: Node)
    ensures root.Dir? && |root.entries| == 256
    ensures forall i, j :: 0 <= i < j < 256 ==> root.entries[i].name != root.entries[j].name
    ensures Planned(root).Some? && Encodable(root) && !DirsFit(root)
  {
    var n: nat :| n == 256;
    root := Dir(Files(n));
    FilesPlan(n, Plan(1, 1, 0));
    FilesDiffer(n);
    hide Files, PlanEntries, Visible, RecordBytes, EncodableAll;
  }

  lemma FilesDiffer(n: nat)
    requires n <= 256
    ensures forall i, j :: 0 <= i < j < n ==> Files(n)[i].name != Files(n)[j].name
  {
    hide Files, FileNamed;
    forall i, j | 0 <= i < j < n ensures Files(n)[i].name != Files(n)[j].name {
      NamesDiffer(n - 1 - i, n - 1 - j);
    }
  }

  lemma NamesDiffer(a: nat, b: nat)
    requires a < 256 && b < 256 && a != b
    ensures FileNamed(a).name != FileNamed(b).name
  {
    var x, y := FileNamed(a).name, FileNamed(b).name;
    assert x[6] == 97 + a / 16 && x[7] == 97 + a % 16 && y[6] == 97 + b / 16 && y[7] == 97 + b % 16;
  }

  // ----- reading back -----------------------------------------------------------------------

  datatype Inode = Inode(dir: bool, size: nat, root: ExtentTree.Root)
  /** Which slice of which file a data block holds. */
  datatype Slice = Slice(inode: nat, index: nat)

  /** What the tool wrote: inode records, directory blocks, extent leaves, data. */
  datatype Disk = Disk(inodes: map<nat, Inode>, dirs: map<nat, seq<Byte>>, leaves: ExtentTree.Disk, data: map<nat, Slice>)

  predicate Submap<K, V(==)>(m: map<K, V>, m': map<K, V>) {
    forall k :: k in m ==> k in m' && m'[k] == m[k]
  }

  /** Nothing written before is overwritten. */
  predicate Extends(d: Disk, d': Disk) {
    Submap(d.inodes, d'.inodes) && Submap(d.dirs, d'.dirs) && Submap(d.leaves, d'.leaves) && Submap(d.data, d'.data)
  }

  predicate LeavesThere(d: Disk, root: ExtentTree.Root) {
    root.Indexed? ==> forall k :: 0 <= k < |root.index| ==> root.index[k].leaf in d.leaves
  }

  function BlockOf(d: Disk, ino: nat, i: nat): Option<nat>
    requires ino in d.inodes
  {
    ExtentTree.Lookup(d.inodes[ino].root, d.leaves, i)
  }

  /** Logical block i leads to slice i of the file, and nothing lies beyond. */
  ghost predicate FileAt(d: Disk, ino: nat, size: nat) {
    && ino in d.inodes && !d.inodes[ino].dir && d.inodes[ino].size == size && LeavesThere(d, d.inodes[ino].root)
    && forall i: nat ::
         var b := BlockOf(d, ino, i);
         if i < DataBlocks(size) then b.Some? && b.value in d.data && d.data[b.value] == Slice(ino, i) else b.None?
  }

  /** The directory's block reads as ".", ".." and the visible entries. */
  ghost predicate DirAt(d: Disk, ino: nat, parent: nat, es: seq<Entry>, first: nat) {
    && ino in d.inodes && d.inodes[ino].dir && LeavesThere(d, d.inodes[ino].root)
    && var b := BlockOf(d, ino, 0);
    && b.Some? && b.value in d.dirs && DirHolds(d.dirs[b.value], ino, parent, es, first)
  }

  ghost predicate DirHolds(block: seq<Byte>, ino: nat, parent: nat, es: seq<Entry>, first: nat) {
    var rs := DirBlock.Records(ino, parent, Children(es, first));
    && |block| == DirBlock.SIZE && DirBlock.Off(rs, |rs| - 1) <= DirBlock.SIZE
    && DirBlock.Walk(block, 0) == DirBlock.Complete(DirBlock.Final(rs))
  }

  /** The tree n can be read back from inode ino. */
  ghost predicate Stored(d: Disk, ino: nat, parent: nat, n: Node)
    decreases n, 1
  {
    match n
    case File(size) => FileAt(d, ino, size)
    case Dir(es) => exists first: nat :: DirAt(d, ino, parent, es, first) && StoredUpTo(d, ino, es, first, |es|)
    case Special => false
  }

  /** Its first m entries can. */
  ghost predicate StoredUpTo(d: Disk, self: nat, es: seq<Entry>, first: nat, m: nat)
    decreases es, 0
  {
    m <= |es| && forall j :: 0 <= j < m && !Hidden(es[j]) ==> Stored(d, NumberOf(es, first, j), self, es[j].node)
  }

  // ----- later writes do not disturb ----------------------------------------------------------

  lemma ExtendsSelf(d: Disk)
    ensures Extends(d, d)
  {
  }

  lemma ExtendsTrans(a: Disk, b: Disk, c: Disk)
    requires Extends(a, b) && Extends(b, c)
    ensures Extends(a, c)
  {
  }

  lemma BlockMono(d: Disk, d': Disk, ino: nat, i: nat)
    requires Extends(d, d') && ino in d.inodes && LeavesThere(d, d.inodes[ino].root)
    ensures ino in d'.inodes && BlockOf(d', ino, i) == BlockOf(d, ino, i) && LeavesThere(d', d'.inodes[ino].root)
  {
    var root := d.inodes[ino].root;
    if root.Indexed? && ExtentTree.LastIndex(root.index, i) >= 0 {
      assert root.index[ExtentTree.LastIndex(root.index, i)].leaf in d.leaves;
    }
  }

  lemma FileMono(d: Disk, d': Disk, ino: nat, size: nat)
    requires Extends(d, d') && FileAt(d, ino, size)
    ensures FileAt(d', ino, size)
  {
    BlockMono(d, d', ino, 0);
    hide BlockOf, LeavesThere;
    forall i: nat
      ensures var b := BlockOf(d', ino, i);
              if i < DataBlocks(size) then b.Some? && b.value in d'.data && d'.data[b.value] == Slice(ino, i) else b.None?
    {
      BlockMono(d, d', ino, i);
    }
  }

  lemma DirMono(d: Disk, d': Disk, ino: nat, parent: nat, es: seq<Entry>, first: nat)
    requires Extends(d, d') && DirAt(d, ino, parent, es, first)
    ensures DirAt(d', ino, parent, es, first)
  {
    hide DirHolds;
    BlockMono(d, d', ino, 0);
  }

  lemma {:induction false} StoredMono(d: Disk, d': Disk, ino: nat, parent: nat, n: Node)
    requires Extends(d, d') && Stored(d, ino, parent, n)
    ensures Stored(d', ino, parent, n)
    decreases n, 1
  {
    hide Extends, FileAt, DirAt;
    match n
    case File(size) => FileMono(d, d', ino, size);
    case Dir(es) =>
      var first: nat :| DirAt(d, ino, parent, es, first) && StoredUpTo(d, ino, es, first, |es|);
      DirMono(d, d', ino, parent, es, first);
      UpToMono(d, d', ino, es, first, |es|);
  }

  lemma {:induction false} UpToMono(d: Disk, d': Disk, self: nat, es: seq<Entry>, first: nat, m: nat)
    requires Extends(d, d') && StoredUpTo(d, self, es, first, m)
    ensures StoredUpTo(d', self, es, first, m)
    decreases es, 0
  {
    hide Extends;
    forall j | 0 <= j < m && !Hidden(es[j]) ensures Stored(d', NumberOf(es, first, j), self, es[j].node) {
      StoredMono(d, d', NumberOf(es, first, j), self, es[j].node);
    }
  }

  // ----- what the writer's steps do -------------------------------------------------------------

  /** Blocks from `block` on and inodes from `inode` on were not written. */
  ghost predicate Unwritten(d: Disk, block: nat, inode: nat) {
    && (forall b :: b in d.dirs ==> b < block)
    && (forall b :: b in d.leaves ==> b < block)
    && (forall b :: b in d.data ==> b < block)
    && (forall k :: k in d.inodes ==> k < inode)
  }

  /** The inodes written from d to d' are `ino` and newly numbered ones. */
  ghost predicate OnlyNew(d: Disk, d': Disk, ino: nat, from: nat) {
    forall k :: k in d'.inodes ==> k in d.inodes || k == ino || k >= from
  }

  function WithFile(d: Disk, ino: nat, size: nat, first: nat, blocks: nat, root: ExtentTree.Root, leaves: ExtentTree.Disk): Disk {
    Disk(d.inodes[ino := Inode(false, size, root)], d.dirs, d.leaves + leaves, WithSlices(d.data, ino, first, blocks))
  }

  /** The n slices of the file, one block after the other. */
  function WithSlices(data: map<nat, Slice>, ino: nat, first: nat, n: nat): (r: map<nat, Slice>)
    ensures forall b :: b in r <==> b in data || first <= b < first + n
    ensures forall b :: b in r ==> r[b] == if first <= b < first + n then Slice(ino, b - first) else data[b]
  {
    if n == 0 then data else WithSlices(data, ino, first, n - 1)[first + (n - 1) := Slice(ino, n - 1)]
  }

  lemma FileWritten(d: Disk, ino: nat, size: nat, first: nat, mid: nat, next: nat, inode: nat, root: ExtentTree.Root, leaves: ExtentTree.Disk)
    requires Unwritten(d, first, inode) && ino < inode && ino !in d.inodes && mid == first + DataBlocks(size) <= next
    requires forall i: nat :: ExtentTree.Lookup(root, leaves, i) == if i < DataBlocks(size) then Some(first + i) else None
    requires forall b :: b in leaves ==> mid <= b < next
    requires root.Indexed? ==> forall k :: 0 <= k < |root.index| ==> root.index[k].leaf in leaves
    ensures var d' := WithFile(d, ino, size, first, DataBlocks(size), root, leaves);
            Extends(d, d') && Unwritten(d', next, inode) && FileAt(d', ino, size) && d'.inodes.Keys == d.inodes.Keys + {ino}
  {
    var n := DataBlocks(size);
    hide DataBlocks;
    FileFresh(d, ino, size, first, n, next, inode, root, leaves);
    FileFound(d, ino, size, first, n, root, leaves);
  }

  lemma FileFresh(d: Disk, ino: nat, size: nat, first: nat, n: nat, next: nat, inode: nat, root: ExtentTree.Root, leaves: ExtentTree.Disk)
    requires Unwritten(d, first, inode) && ino < inode && ino !in d.inodes && first + n <= next
    requires forall b :: b in leaves ==> first + n <= b < next
    ensures var d' := WithFile(d, ino, size, first, n, root, leaves);
            Extends(d, d') && Unwritten(d', next, inode) && d'.inodes.Keys == d.inodes.Keys + {ino}
  {
    hide WithSlices;
  }

  lemma FileFound(d: Disk, ino: nat, size: nat, first: nat, n: nat, root: ExtentTree.Root, leaves: ExtentTree.Disk)
    requires n == DataBlocks(size)
    requires forall i: nat :: ExtentTree.Lookup(root, leaves, i) == if i < n then Some(first + i) else None
    requires root.Indexed? ==> forall k :: 0 <= k < |root.index| ==> root.index[k].leaf in leaves
    ensures FileAt(WithFile(d, ino, size, first, n, root, leaves), ino, size)
  {
    hide DataBlocks, WithSlices, ExtentTree.Lookup;
    var d' := WithFile(d, ino, size, first, n, root, leaves);
    forall i: nat
      ensures var b := BlockOf(d', ino, i);
              if i < n then b.Some? && b.value in d'.data && d'.data[b.value] == Slice(ino, i) else b.None?
    {
      Merged(root, d.leaves, leaves, i);
    }
  }

  lemma Merged(root: ExtentTree.Root, old_: ExtentTree.Disk, leaves: ExtentTree.Disk, i: nat)
    requires root.Indexed? ==> forall k :: 0 <= k < |root.index| ==> root.index[k].leaf in leaves
    ensures ExtentTree.Lookup(root, old_ + leaves, i) == ExtentTree.Lookup(root, leaves, i)
  {
  }

  lemma DirWritten(d: Disk, self: nat, parent: nat, es: seq<Entry>, first: nat, b: nat, block: seq<Byte>)
    requires self in d.inodes && d.inodes[self].dir && LeavesThere(d, d.inodes[self].root) && BlockOf(d, self, 0) == Some(b)
    requires b !in d.dirs && DirHolds(block, self, parent, es, first)
    ensures var d' := d.(dirs := d.dirs[b := block]); Extends(d, d') && DirAt(d', self, parent, es, first)
  {
    hide DirHolds;
    var d' := d.(dirs := d.dirs[b := block]);
    assert BlockOf(d', self, 0) == BlockOf(d, self, 0);
  }

  /** The recursive measures of what is left of a directory. */
  lemma Left(es: seq<Entry>, i: nat)
    requires i < |es|
    ensures var e, a, b := es[i], es[i..], es[i + 1..];
            && (PlainAll(a) <==> (Hidden(e) || Plain(e.node)) && PlainAll(b))
            && (EncodableAll(a) <==> (Hidden(e) || Encodable(e.node)) && EncodableAll(b))
            && (DirsFitAll(a) <==> (Hidden(e) || DirsFit(e.node)) && DirsFitAll(b))
            && NeedAll(a) == (if Hidden(e) then 0 else Need(e.node)) + NeedAll(b)
            && BelowAll(a) == (if Hidden(e) then 0 else Below(e.node)) + BelowAll(b)
  {
    assert es[i..][0] == es[i] && es[i..][1..] == es[i + 1..];
  }

  lemma {:induction false} VisibleMono(es: seq<Entry>, j: nat)
    requires j <= |es|
    ensures Visible(es[..j]) <= Visible(es)
    decreases |es| - j
  {
    if j < |es| {
      VisibleSnoc(es, j);
      VisibleMono(es, j + 1);
    } else {
      assert es[..j] == es;
    }
  }

  lemma NothingYet(d: Disk, self: nat, es: seq<Entry>, first: nat)
    ensures es[0..] == es && NumberOf(es, first, 0) == first && StoredUpTo(d, self, es, first, 0)
  {
  }

  lemma NothingLeft(es: seq<Entry>)
    ensures NeedAll(es[|es|..]) == 0 && BelowAll(es[|es|..]) == 0 && EncodableAll(es[|es|..]) && DirsFitAll(es[|es|..])
  {
  }

  lemma OneMoreStored(d0: Disk, d: Disk, d': Disk, self: nat, parent: nat, es: seq<Entry>, first: nat, i: nat)
    requires i < |es| && Extends(d0, d) && Extends(d, d') && DirAt(d, self, parent, es, first) && StoredUpTo(d, self, es, first, i)
    requires Stored(d', NumberOf(es, first, i), self, es[i].node)
    ensures Extends(d0, d') && DirAt(d', self, parent, es, first) && StoredUpTo(d', self, es, first, i + 1)
  {
    ExtendsTrans(d0, d, d');
    DirMono(d, d', self, parent, es, first);
    UpToMono(d, d', self, es, first, i);
    hide Extends, DirAt, Stored;
  }

  lemma SkipHidden(d: Disk, self: nat, es: seq<Entry>, first: nat, i: nat)
    requires i < |es| && Hidden(es[i]) && StoredUpTo(d, self, es, first, i)
    ensures StoredUpTo(d, self, es, first, i + 1)
  {
    hide Stored;
  }

  lemma WholeDir(d: Disk, self: nat, parent: nat, es: seq<Entry>, first: nat)
    requires DirAt(d, self, parent, es, first) && StoredUpTo(d, self, es, first, |es|)
    ensures Stored(d, self, parent, Dir(es))
  {
    hide DirAt;
  }
}
