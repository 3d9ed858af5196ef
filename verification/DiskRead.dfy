/** What a reader of the image finds, said without the writer's own notions: dot
    names are left out, directories are records of type 2 and files of type 1, and
    a file of `size` bytes has a block for every 4096 of them. */
module DiskRead {
  import opened Basics
  import opened DiskPlan
  import opened DiskTree
  import ExtentTree
  import DirBlock

  predicate Dotted(name: seq<Byte>) {
    |name| > 0 && name[0] == 46
  }

  /** The number of entries that do not begin with a dot. */
  function Shown(es: seq<Entry>): nat {
    if es == [] then 0 else Shown(es[..|es| - 1]) + if Dotted(es[|es| - 1].name) then 0 else 1
  }

  /** Slice i of the file is found through logical block i while bytes are left,
      and no block beyond. */
  ghost predicate FileReads(d: Disk, ino: nat, size: nat) {
    && ino in d.inodes && !d.inodes[ino].dir && d.inodes[ino].size == size
    && forall i: nat ::
         var b := BlockOf(d, ino, i);
         if 4096 * i < size then b.Some? && b.value in d.data && d.data[b.value] == Slice(ino, i) else b.None?
  }

  /** The records of the directory: itself, its parent, and every entry that is
      shown, in order, under its name and with the type of its node. */
  ghost predicate Lists(rs: seq<DirBlock.Record>, ino: nat, parent: nat, es: seq<Entry>) {
    && |rs| == 2 + Shown(es)
    && rs[0].name == [46] && rs[0].inode == ino && rs[0].kind == 2
    && rs[1].name == [46, 46] && rs[1].inode == parent && rs[1].kind == 2
    && forall j :: 0 <= j < |es| && !Dotted(es[j].name) ==>
         2 + Shown(es[..j]) < |rs| && ListedAs(rs[2 + Shown(es[..j])], es[j])
  }

  predicate ListedAs(r: DirBlock.Record, e: Entry) {
    r.name == e.name && (r.kind == 2 <==> e.node.Dir?) && (r.kind == 1 <==> e.node.File?)
  }

  /** The records found in the directory's block. */
  ghost predicate Records(d: Disk, ino: nat, rs: seq<DirBlock.Record>) {
    && ino in d.inodes && d.inodes[ino].dir
    && var b := BlockOf(d, ino, 0);
    && b.Some? && b.value in d.dirs && |d.dirs[b.value]| == 4096 && DirBlock.Walk(d.dirs[b.value], 0) == DirBlock.Complete(rs)
  }

  /** The tree n is what a reader finds from inode ino. */
  ghost predicate Readable(d: Disk, ino: nat, parent: nat, n: Node)
    decreases n, 1
  {
    match n
    case File(size) => FileReads(d, ino, size)
    case Dir(es) =>
      exists rs: seq<DirBlock.Record> ::
        Records(d, ino, rs) && Lists(rs, ino, parent, es) && ReadableBelow(d, ino, es, rs)
    case Special => false
  }

  /** So is what each entry that is shown leads to. */
  ghost predicate ReadableBelow(d: Disk, ino: nat, es: seq<Entry>, rs: seq<DirBlock.Record>)
    decreases es, 0
  {
    forall j :: 0 <= j < |es| && !Dotted(es[j].name) ==>
      2 + Shown(es[..j]) < |rs| && Readable(d, rs[2 + Shown(es[..j])].inode, ino, es[j].node)
  }

  // ----- it follows from what the writer keeps ---------------------------------------------------

  lemma HiddenIsDotted(e: Entry)
    ensures Hidden(e) <==> Dotted(e.name)
  {
  }

  lemma {:induction false} ShownIsVisible(es: seq<Entry>, j: nat)
    requires j <= |es|
    ensures Shown(es[..j]) == Visible(es[..j])
    decreases j
  {
    if j > 0 {
      ShownIsVisible(es, j - 1);
      VisibleSnoc(es, j - 1);
      HiddenIsDotted(es[j - 1]);
      assert es[..j][..j - 1] == es[..j - 1] && es[..j][j - 1] == es[j - 1];
    }
  }

  lemma {:induction false} ChildAt(es: seq<Entry>, first: nat, j: nat, m: nat)
    requires j < m <= |es| && !Hidden(es[j])
    ensures Visible(es[..j]) < |Children(es[..m], first)|
    ensures Children(es[..m], first)[Visible(es[..j])] == DirBlock.Child(NumberOf(es, first, j), Kind(es[j].node), es[j].name)
    decreases m
  {
    ChildrenSnoc(es, first, m - 1);
    if j < m - 1 {
      ChildAt(es, first, j, m - 1);
    }
  }

  lemma BlocksOfSize(size: nat, i: nat)
    ensures i < DataBlocks(size) <==> 4096 * i < size
  {
  }

  lemma FileReadsBack(d: Disk, ino: nat, size: nat)
    requires FileAt(d, ino, size)
    ensures FileReads(d, ino, size)
  {
    hide DataBlocks, BlockOf;
    forall i: nat
      ensures var b := BlockOf(d, ino, i);
              if 4096 * i < size then b.Some? && b.value in d.data && d.data[b.value] == Slice(ino, i) else b.None?
    {
      BlocksOfSize(size, i);
    }
  }

  /** Entry j has its number in the records. */
  predicate HasNumber(rs: seq<DirBlock.Record>, es: seq<Entry>, first: nat, j: nat)
    requires j < |es|
  {
    2 + Shown(es[..j]) < |rs| && rs[2 + Shown(es[..j])].inode == NumberOf(es, first, j)
  }

  ghost predicate Numbered(rs: seq<DirBlock.Record>, es: seq<Entry>, first: nat) {
    forall j :: 0 <= j < |es| && !Dotted(es[j].name) ==> HasNumber(rs, es, first, j)
  }

  /** The record of entry j. */
  lemma OneListed(ino: nat, parent: nat, es: seq<Entry>, first: nat, rs: seq<DirBlock.Record>, j: nat)
    requires var all := DirBlock.Records(ino, parent, Children(es, first));
             DirBlock.Off(all, |all| - 1) <= DirBlock.SIZE && rs == DirBlock.Final(all)
    requires j < |es| && !Dotted(es[j].name) && !es[j].node.Special?
    ensures HasNumber(rs, es, first, j) && ListedAs(rs[2 + Shown(es[..j])], es[j])
  {
    hide DirBlock.Off, Children, Visible, Shown;
    HiddenIsDotted(es[j]);
    ShownIsVisible(es, j);
    ChildAt(es, first, j, |es|);
    assert es[..|es|] == es;
    var k := Visible(es[..j]);
    assert DirBlock.Records(ino, parent, Children(es, first))[2 + k] == DirBlock.RecordOf(Children(es, first)[k]);
  }

  lemma DotsListed(ino: nat, parent: nat, es: seq<Entry>, first: nat, rs: seq<DirBlock.Record>)
    requires var all := DirBlock.Records(ino, parent, Children(es, first));
             DirBlock.Off(all, |all| - 1) <= DirBlock.SIZE && rs == DirBlock.Final(all)
    ensures |rs| == 2 + Shown(es)
    ensures rs[0].name == [46] && rs[0].inode == ino && rs[0].kind == 2
    ensures rs[1].name == [46, 46] && rs[1].inode == parent && rs[1].kind == 2
  {
    hide DirBlock.Off, Children, Visible, Shown;
    assert es[..|es|] == es;
    ShownIsVisible(es, |es|);
  }

  lemma {:induction false} PlainChild(es: seq<Entry>, j: nat)
    requires j < |es| && PlainAll(es) && !Hidden(es[j])
    ensures Plain(es[j].node) && !es[j].node.Special?
  {
    if j > 0 {
      PlainChild(es[1..], j - 1);
    }
  }

  lemma DirReads(d: Disk, ino: nat, parent: nat, es: seq<Entry>, first: nat) returns (rs: seq<DirBlock.Record>)
    requires DirAt(d, ino, parent, es, first) && PlainAll(es)
    ensures Records(d, ino, rs) && Lists(rs, ino, parent, es) && Numbered(rs, es, first)
  {
    rs := DirBlock.Final(DirBlock.Records(ino, parent, Children(es, first)));
    assert Records(d, ino, rs);
    hide DirBlock.Records, DirBlock.Final, DirBlock.Off, DirBlock.Walk, Children, Shown, Records, BlockOf, ListedAs, HasNumber, PlainAll;
    DotsListed(ino, parent, es, first, rs);
    forall j | 0 <= j < |es| && !Dotted(es[j].name)
      ensures HasNumber(rs, es, first, j) && 2 + Shown(es[..j]) < |rs| && ListedAs(rs[2 + Shown(es[..j])], es[j])
    {
      HiddenIsDotted(es[j]);
      PlainChild(es, j);
      OneListed(ino, parent, es, first, rs, j);
      InRange(rs, es, first, j);
    }
  }

  lemma InRange(rs: seq<DirBlock.Record>, es: seq<Entry>, first: nat, j: nat)
    requires j < |es| && HasNumber(rs, es, first, j)
    ensures 2 + Shown(es[..j]) < |rs| && rs[2 + Shown(es[..j])].inode == NumberOf(es, first, j)
  {
  }

  ghost predicate ListedIn(d: Disk, ino: nat, parent: nat, es: seq<Entry>) {
    exists rs :: Records(d, ino, rs) && Lists(rs, ino, parent, es)
  }

  lemma DirListed(d: Disk, ino: nat, parent: nat, es: seq<Entry>, first: nat)
    requires DirAt(d, ino, parent, es, first)
    ensures PlainAll(es) ==> ListedIn(d, ino, parent, es)
  {
    hide DirAt, Records, Lists, PlainAll, Numbered;
    if PlainAll(es) {
      var rs := DirReads(d, ino, parent, es, first);
    }
  }

  /** What the writer keeps is what a reader finds. */
  lemma {:induction false} ReadsBack(d: Disk, ino: nat, parent: nat, n: Node)
    requires Stored(d, ino, parent, n) && Plain(n)
    ensures Readable(d, ino, parent, n)
    decreases n, 1
  {
    match n
    case File(size) => FileReadsBack(d, ino, size);
    case Dir(es) =>
      var first: nat :| DirAt(d, ino, parent, es, first) && StoredUpTo(d, ino, es, first, |es|);
      hide DirAt, Records, Lists, PlainAll, Numbered, StoredUpTo, ReadableBelow;
      var rs := DirReads(d, ino, parent, es, first);
      BelowReadsBack(d, ino, es, first, rs);
      assert Records(d, ino, rs) && Lists(rs, ino, parent, es) && ReadableBelow(d, ino, es, rs);
  }

  lemma {:induction false} BelowReadsBack(d: Disk, ino: nat, es: seq<Entry>, first: nat, rs: seq<DirBlock.Record>)
    requires StoredUpTo(d, ino, es, first, |es|) && PlainAll(es) && Numbered(rs, es, first)
    ensures ReadableBelow(d, ino, es, rs)
    decreases es, 0
  {
    hide PlainAll, Shown, HasNumber, Stored, Readable, NumberOf;
    forall j | 0 <= j < |es| && !Dotted(es[j].name)
      ensures 2 + Shown(es[..j]) < |rs| && Readable(d, rs[2 + Shown(es[..j])].inode, ino, es[j].node)
    {
      HiddenIsDotted(es[j]);
      PlainChild(es, j);
      InRange(rs, es, first, j);
      ReadsBack(d, NumberOf(es, first, j), ino, es[j].node);
    }
  }

  /** The entries that are shown, each under its name, with the type of its node,
      and numbered consecutively from `first` on. */
  ghost predicate InOrder(cs: seq<DirBlock.Child>, es: seq<Entry>, first: nat) {
    && |cs| == Shown(es)
    && forall j :: 0 <= j < |es| && !Dotted(es[j].name) ==>
         Shown(es[..j]) < |cs| && IsChild(cs[Shown(es[..j])], es[j], first + Shown(es[..j]))
  }

  predicate IsChild(c: DirBlock.Child, e: Entry, number: nat) {
    c.inode == number && c.name == e.name && c.kind == if e.node.Dir? then 2 else 1
  }

  lemma ChildrenInOrder(es: seq<Entry>, first: nat)
    ensures InOrder(Children(es, first), es, first)
  {
    hide Children, Visible, Shown;
    assert es[..|es|] == es;
    ShownIsVisible(es, |es|);
    forall j | 0 <= j < |es| && !Dotted(es[j].name)
      ensures Shown(es[..j]) < |Children(es, first)| && IsChild(Children(es, first)[Shown(es[..j])], es[j], first + Shown(es[..j]))
    {
      HiddenIsDotted(es[j]);
      ShownIsVisible(es, j);
      ChildAt(es, first, j, |es|);
    }
  }
}
