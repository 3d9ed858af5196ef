/** Planning in tools/mkdisk.c: how many blocks a rootfs will take, and the size
    of the partition that holds them. */
module DiskPlan {
  import opened Basics

  const BLOCK_SIZE: nat := 4096
  const BLOCKS_PER_GROUP: nat := 32768
  const MAX_GROUPS: nat := 128
  const MIN_GROUPS: nat := 4
  const BLK_DATA_START: nat := 68
  const GN_META_BLOCKS: nat := 3
  const MAX_DIR_ENTRIES: nat := 256
  const MAX_INODES: nat := 1014
  /** Extents per leaf block, and blocks per extent of a large file. */
  const PER_LEAF: nat := 340
  const CAP: nat := 8
  const MAX_LEAVES: nat := 4

  /** A host directory tree.  Special is anything but a file or a directory. */
  datatype Node = File(size: nat) | Dir(entries: seq<Entry>) | Special
  datatype Entry = Entry(name: Name, node: Node)

  /** What readdir can return: at most 255 bytes. */
  type Name = s: seq<Byte> | |s| < 256 witness []

  /** readdir's "." and ".." and dot files are skipped by planner and writer. */
  predicate Hidden(e: Entry) {
    e.name != [] && e.name[0] == 46
  }

  function CeilDiv(a: nat, b: nat): (r: nat)
    requires b > 0
    ensures b * r >= a && (r > 0 ==> b * (r - 1) < a)
  {
    (a + b - 1) / b
  }

  function DataBlocks(size: nat): nat {
    CeilDiv(size, BLOCK_SIZE)
  }

  // ----- the planner ---------------------------------------------------------------------

  datatype Plan = Plan(inodes: nat, data: nat, leaves: nat)

  /** plan_extent_leaves */
  function PlanLeaves(blocks: nat): nat {
    if blocks <= 32 then 0 else (((blocks + 7) / 8) + 339) / 340
  }

  function Visible(es: seq<Entry>): nat {
    if es == [] then 0 else (if Hidden(es[0]) then 0 else 1) + Visible(es[1..])
  }

  /** plan_rootfs: None stands for exit(1). */
  function PlanNode(n: Node, p: Plan): Option<Plan>
    decreases n, 1
  {
    match n
    case File(size) =>
      var blocks := DataBlocks(size);
      Some(Plan(p.inodes + 1, p.data + blocks, p.leaves + PlanLeaves(blocks)))
    case Dir(es) =>
      if Visible(es) > MAX_DIR_ENTRIES then None
      else PlanEntries(es, Plan(p.inodes + 1, p.data + 1, p.leaves))
    case Special => None
  }

  function PlanEntries(es: seq<Entry>, p: Plan): Option<Plan>
    decreases es, 0
  {
    if es == [] then Some(p)
    else if Hidden(es[0]) then PlanEntries(es[1..], p)
    else match PlanNode(es[0].node, p)
      case None => None
      case Some(p1) => PlanEntries(es[1..], p1)
  }

  /** plan_partition_blocks, from the finished plan. */
  function PartitionBlocks(p: Plan): Option<nat> {
    if p.inodes > MAX_INODES then None else
    var content := BLK_DATA_START + p.data + p.leaves;
    var groups := if content <= BLOCKS_PER_GROUP then 1
                  else 1 + (content - BLOCKS_PER_GROUP + (BLOCKS_PER_GROUP - GN_META_BLOCKS) - 1)
                           / (BLOCKS_PER_GROUP - GN_META_BLOCKS);
    var groups' := if groups < MIN_GROUPS then MIN_GROUPS else groups;
    if groups' > MAX_GROUPS then None else Some(groups' * BLOCKS_PER_GROUP)
  }

  /** The whole planning phase. */
  function Planned(root: Node): Option<nat> {
    match PlanNode(root, Plan(0, 0, 0))
    case None => None
    case Some(p) => PartitionBlocks(p)
  }

  // ----- what the writer will take, said independently -------------------------------------

  /** Leaf blocks build_extent_tree allocates: extents of 8 blocks above 32
      blocks, none while four extents fit into the inode. */
  function TreeLeaves(blocks: nat): nat {
    var ext := if blocks > 32 then CeilDiv(blocks, CAP) else CeilDiv(blocks, BLOCKS_PER_GROUP);
    if ext <= 4 then 0 else CeilDiv(ext, PER_LEAF)
  }

  predicate FitsTree(blocks: nat) {
    TreeLeaves(blocks) <= MAX_LEAVES
  }

  function Need(n: Node): nat
    decreases n, 1
  {
    match n
    case File(size) => DataBlocks(size) + TreeLeaves(DataBlocks(size))
    case Dir(es) => 1 + NeedAll(es)
    case Special => 0
  }

  function NeedAll(es: seq<Entry>): nat
    decreases es, 0
  {
    if es == [] then 0
    else (if Hidden(es[0]) then 0 else Need(es[0].node)) + NeedAll(es[1..])
  }

  /** Inodes for what is below n. */
  function Below(n: Node): nat
    decreases n, 1
  {
    if n.Dir? then Visible(n.entries) + BelowAll(n.entries) else 0
  }

  function BelowAll(es: seq<Entry>): nat
    decreases es, 0
  {
    if es == [] then 0
    else (if Hidden(es[0]) then 0 else Below(es[0].node)) + BelowAll(es[1..])
  }

  /** The planner counts one inode for the node and one for everything below it. */
  lemma {:induction false} PlanInodes(n: Node, p: Plan)
    requires PlanNode(n, p).Some?
    ensures PlanNode(n, p).value.inodes == p.inodes + 1 + Below(n)
    decreases n, 1
  {
    if n.Dir? {
      PlanAllInodes(n.entries, Plan(p.inodes + 1, p.data + 1, p.leaves));
    }
  }

  lemma {:induction false} PlanAllInodes(es: seq<Entry>, p: Plan)
    requires PlanEntries(es, p).Some?
    ensures PlanEntries(es, p).value.inodes == p.inodes + Visible(es) + BelowAll(es)
    decreases es, 0
  {
    if es != [] {
      if Hidden(es[0]) {
        PlanAllInodes(es[1..], p);
      } else {
        PlanInodes(es[0].node, p);
        PlanAllInodes(es[1..], PlanNode(es[0].node, p).value);
      }
    }
  }

  /** The planner reserves leaves exactly when the tree builder needs them, and
      exactly as many. */
  lemma LeavesAgree(blocks: nat)
    ensures PlanLeaves(blocks) == TreeLeaves(blocks)
    ensures PlanLeaves(blocks) > 0 <==> blocks > 32
  {
    if blocks > 32 {
      assert CeilDiv(blocks, CAP) == (blocks + 7) / 8;
    } else {
      assert CeilDiv(blocks, BLOCKS_PER_GROUP) <= 1;
    }
  }

  /** The planner counts what the writer takes. */
  lemma {:induction false} PlanIsNeed(n: Node, p: Plan)
    requires PlanNode(n, p).Some?
    ensures var q := PlanNode(n, p).value; q.data + q.leaves == p.data + p.leaves + Need(n)
    decreases n, 1
  {
    match n
    case File(size) => LeavesAgree(DataBlocks(size));
    case Dir(es) => PlanAllIsNeed(es, Plan(p.inodes + 1, p.data + 1, p.leaves));
  }

  lemma {:induction false} PlanAllIsNeed(es: seq<Entry>, p: Plan)
    requires PlanEntries(es, p).Some?
    ensures var q := PlanEntries(es, p).value; q.data + q.leaves == p.data + p.leaves + NeedAll(es)
    decreases es, 0
  {
    if es != [] {
      if Hidden(es[0]) {
        PlanAllIsNeed(es[1..], p);
      } else {
        PlanIsNeed(es[0].node, p);
        PlanAllIsNeed(es[1..], PlanNode(es[0].node, p).value);
      }
    }
  }

  /** The partition is big enough, a whole number of groups, and has at least
      four of them. */
  lemma PlanFits(root: Node)
    requires Planned(root).Some?
    ensures BLK_DATA_START + Need(root) <= Planned(root).value
    ensures Planned(root).value % BLOCKS_PER_GROUP == 0
    ensures MIN_GROUPS * BLOCKS_PER_GROUP <= Planned(root).value <= MAX_GROUPS * BLOCKS_PER_GROUP
    ensures 1 + Below(root) <= MAX_INODES
  {
    hide PartitionBlocks, PlanNode;
    PlanIsNeed(root, Plan(0, 0, 0));
    PlanInodes(root, Plan(0, 0, 0));
    PartitionFits(PlanNode(root, Plan(0, 0, 0)).value);
  }

  lemma PartitionFits(p: Plan)
    requires PartitionBlocks(p).Some?
    ensures BLK_DATA_START + p.data + p.leaves <= PartitionBlocks(p).value
    ensures PartitionBlocks(p).value % BLOCKS_PER_GROUP == 0
    ensures MIN_GROUPS * BLOCKS_PER_GROUP <= PartitionBlocks(p).value <= MAX_GROUPS * BLOCKS_PER_GROUP
    ensures p.inodes <= MAX_INODES
  {
    var content := BLK_DATA_START + p.data + p.leaves;
    if content > BLOCKS_PER_GROUP {
      GroupsFit(content);
    }
  }

  lemma GroupsFit(content: nat)
    requires content > BLOCKS_PER_GROUP
    ensures var g := 1 + (content - BLOCKS_PER_GROUP + (BLOCKS_PER_GROUP - GN_META_BLOCKS) - 1)
                         / (BLOCKS_PER_GROUP - GN_META_BLOCKS);
            content <= g * BLOCKS_PER_GROUP
  {
  }

  // ----- trees the writer can encode -----------------------------------------------------------

  /** No visible entry below n is anything but a file or a directory. */
  predicate Plain(n: Node)
    decreases n, 1
  {
    match n
    case File(_) => true
    case Dir(es) => PlainAll(es)
    case Special => false
  }

  predicate PlainAll(es: seq<Entry>)
    decreases es, 0
  {
    es == [] || ((Hidden(es[0]) || Plain(es[0].node)) && PlainAll(es[1..]))
  }

  /** Every visible file below n gets by with four leaf blocks. */
  predicate Encodable(n: Node)
    decreases n, 1
  {
    match n
    case File(size) => FitsTree(DataBlocks(size))
    case Dir(es) => EncodableAll(es)
    case Special => true
  }

  predicate EncodableAll(es: seq<Entry>)
    decreases es, 0
  {
    es == [] || ((Hidden(es[0]) || Encodable(es[0].node)) && EncodableAll(es[1..]))
  }

  lemma {:induction false} PlannedIsPlain(n: Node, p: Plan)
    requires PlanNode(n, p).Some?
    ensures Plain(n)
    decreases n, 1
  {
    if n.Dir? {
      PlannedAllPlain(n.entries, Plan(p.inodes + 1, p.data + 1, p.leaves));
    }
  }

  lemma {:induction false} PlannedAllPlain(es: seq<Entry>, p: Plan)
    requires PlanEntries(es, p).Some?
    ensures PlainAll(es)
    decreases es, 0
  {
    if es != [] {
      if Hidden(es[0]) {
        PlannedAllPlain(es[1..], p);
      } else {
        PlannedIsPlain(es[0].node, p);
        PlannedAllPlain(es[1..], PlanNode(es[0].node, p).value);
      }
    }
  }

  /** No visible directory below n has more than 256 visible entries. */
  predicate Narrow(n: Node)
    decreases n, 1
  {
    n.Dir? ==> Visible(n.entries) <= 256 && NarrowAll(n.entries)
  }

  predicate NarrowAll(es: seq<Entry>)
    decreases es, 0
  {
    es == [] || ((Hidden(es[0]) || Narrow(es[0].node)) && NarrowAll(es[1..]))
  }

  lemma {:induction false} PlanNodeIff(n: Node, p: Plan)
    ensures PlanNode(n, p).Some? <==> Plain(n) && Narrow(n)
    decreases n, 1
  {
    if n.Dir? {
      PlanEntriesIff(n.entries, Plan(p.inodes + 1, p.data + 1, p.leaves));
    }
  }

  lemma {:induction false} PlanEntriesIff(es: seq<Entry>, p: Plan)
    ensures PlanEntries(es, p).Some? <==> PlainAll(es) && NarrowAll(es)
    decreases es, 0
  {
    if es != [] {
      if Hidden(es[0]) {
        PlanEntriesIff(es[1..], p);
      } else {
        PlanNodeIff(es[0].node, p);
        if PlanNode(es[0].node, p).Some? {
          PlanEntriesIff(es[1..], PlanNode(es[0].node, p).value);
        }
      }
    }
  }

  /** A tree is accepted if and only if it holds files and directories only, no
      directory has more than 256 entries, there are at most 1014 inodes, and the
      content fits 128 groups of which all but the first lose three blocks. */
  lemma PlannedIff(root: Node)
    ensures Planned(root).Some? <==>
              Plain(root) && Narrow(root) && 1 + Below(root) <= 1014 && 68 + Need(root) <= 32768 + 127 * 32765
  {
    hide PlanNode, PartitionBlocks, Need, Below, Plain, Narrow;
    PlanNodeIff(root, Plan(0, 0, 0));
    if PlanNode(root, Plan(0, 0, 0)).Some? {
      PlanIsNeed(root, Plan(0, 0, 0));
      PlanInodes(root, Plan(0, 0, 0));
      PartitionIff(PlanNode(root, Plan(0, 0, 0)).value);
    }
  }

  lemma PartitionIff(p: Plan)
    ensures PartitionBlocks(p).Some? <==> p.inodes <= 1014 && 68 + p.data + p.leaves <= 32768 + 127 * 32765
    ensures PartitionBlocks(p).Some? ==> PartitionBlocks(p).value == 32768 * (PartitionBlocks(p).value / 32768)
    ensures PartitionBlocks(p).Some? ==>
              var g, content := PartitionBlocks(p).value / 32768, 68 + p.data + p.leaves;
              4 <= g <= 128 && content <= 32768 + (g - 1) * 32765 && (g == 4 || content > 32768 + (g - 2) * 32765)
  {
  }

  /** The partition has the fewest groups that hold the content, but at least four. */
  lemma PlannedIsLeast(root: Node)
    requires Planned(root).Some?
    ensures var g := Planned(root).value / 32768;
            && Planned(root).value == 32768 * g && 4 <= g <= 128 && 68 + Need(root) <= 32768 + (g - 1) * 32765
            && (g == 4 || 68 + Need(root) > 32768 + (g - 2) * 32765)
  {
    hide PlanNode, PartitionBlocks, Need;
    PlanIsNeed(root, Plan(0, 0, 0));
    PartitionIff(PlanNode(root, Plan(0, 0, 0)).value);
  }

  /** Four leaves hold 4 * 340 extents of 8 blocks. */
  lemma FitsTreeIff(blocks: nat)
    ensures FitsTree(blocks) <==> blocks <= MAX_LEAVES * PER_LEAF * CAP
  {
  }
}
