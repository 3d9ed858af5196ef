/** The legacy inode layout of tools/mkdisk.c (--legacy): twelve direct pointers,
    one indirect and one double-indirect block, allocated while the data goes out. */
module LegacyLayout {
  import opened Basics

  const DIRECT: nat := 12
  /** Pointers per block. */
  const PTRS: nat := 1024
  const SINGLE_END: nat := DIRECT + PTRS
  const MAX_BLOCKS: nat := SINGLE_END + PTRS * PTRS

  type PtrBlock = s: seq<nat> | |s| == PTRS witness seq(PTRS, i => 0)

  function EmptyPtrs(): PtrBlock {
    seq(PTRS, i => 0)
  }

  function SetPtr(p: PtrBlock, k: nat, v: nat): PtrBlock
    requires k < PTRS
  {
    p[k := v]
  }

  // ----- where everything lands ------------------------------------------------------------

  /** Pointer blocks allocated before data block k. */
  function PtrsBefore(k: nat): nat {
    if k <= DIRECT then 0
    else if k <= SINGLE_END then 1
    else 2 + (k - SINGLE_END + PTRS - 1) / PTRS
  }

  /** The disk block of data block k of a file whose allocation starts at first. */
  function DataAt(first: nat, k: nat): nat {
    first + k + PtrsBefore(k)
  }

  /** The disk block of the m-th second-level pointer block. */
  function SubAt(first: nat, m: nat): nat {
    DataAt(first, SINGLE_END + PTRS * m) + if m == 0 then 2 else 1
  }

  const IND1: nat := DIRECT + 1
  const IND2: nat := SINGLE_END + 2

  lemma DataStep(first: nat, k: nat)
    ensures DataAt(first, k + 1) == DataAt(first, k) + 1
            + (if k == DIRECT then 1 else 0)
            + (if k == SINGLE_END then 1 else 0)
            + (if k >= SINGLE_END && (k - SINGLE_END) % PTRS == 0 then 1 else 0)
  {
    if k > SINGLE_END {
      var d := k - SINGLE_END;
      assert (d + PTRS - 1) / PTRS == if d % PTRS == 0 then d / PTRS else d / PTRS + 1;
      assert (d + 1 + PTRS - 1) / PTRS == d / PTRS + 1;
    }
  }

  lemma {:induction false} DataIncreases(first: nat, j: nat, k: nat)
    requires j < k
    ensures DataAt(first, j) < DataAt(first, k)
    decreases k
  {
    DataStep(first, k - 1);
    if j < k - 1 {
      DataIncreases(first, j, k - 1);
    }
  }

  lemma DataGrows(first: nat, j: nat, k: nat)
    requires j <= k
    ensures DataAt(first, j) <= DataAt(first, k)
  {
    if j < k {
      DataIncreases(first, j, k);
    }
  }

  /** A pointer block lies strictly between two consecutive data blocks. */
  lemma SubBetween(first: nat, m: nat)
    ensures DataAt(first, SINGLE_END + PTRS * m) < SubAt(first, m) < DataAt(first, SINGLE_END + PTRS * m + 1)
  {
    DataStep(first, SINGLE_END + PTRS * m);
  }

  lemma BetweenIsNoData(first: nat, k: nat, p: nat, j: nat)
    requires DataAt(first, k) < p < DataAt(first, k + 1)
    ensures p != DataAt(first, j)
  {
    if j < k {
      DataIncreases(first, j, k);
    } else if j > k + 1 {
      DataIncreases(first, k + 1, j);
    }
  }

  /** Pointer blocks differ from every data block and from each other. */
  lemma AllDistinct(first: nat, j: nat, k: nat, m: nat, n: nat)
    ensures j != k ==> DataAt(first, j) != DataAt(first, k)
    ensures SubAt(first, m) != DataAt(first, j)
    ensures first + IND1 != DataAt(first, j) && first + IND2 != DataAt(first, j)
    ensures m != n ==> SubAt(first, m) != SubAt(first, n)
    ensures SubAt(first, m) != first + IND1 && SubAt(first, m) != first + IND2
  {
    if j < k { DataIncreases(first, j, k); }
    if k < j { DataIncreases(first, k, j); }
    SubBetween(first, m);
    SubBetween(first, n);
    BetweenIsNoData(first, SINGLE_END + PTRS * m, SubAt(first, m), j);
    DataStep(first, DIRECT);
    BetweenIsNoData(first, DIRECT, first + IND1, j);
    DataStep(first, SINGLE_END);
    BetweenIsNoData(first, SINGLE_END, first + IND2, j);
    if m < n { SubsIncrease(first, m, n); }
    if n < m { SubsIncrease(first, n, m); }
    DataIncreases(first, DIRECT + 1, SINGLE_END + PTRS * m);
    if m > 0 { SubsIncrease(first, 0, m); }
  }

  lemma SubsIncrease(first: nat, m: nat, n: nat)
    requires m < n
    ensures SubAt(first, m) < SubAt(first, n)
  {
    SubBetween(first, m);
    SubBetween(first, n);
    if SINGLE_END + PTRS * m + 1 < SINGLE_END + PTRS * n {
      DataIncreases(first, SINGLE_END + PTRS * m + 1, SINGLE_END + PTRS * n);
    }
  }

  // ----- the writer's buffers after n data blocks ------------------------------------------------

  type Inode = s: seq<nat> | |s| == 15 witness seq(15, i => 0)
  type Subs = s: seq<Option<PtrBlock>> | |s| == PTRS witness seq(PTRS, i => None)

  ghost predicate DirectOk(ino: Inode, first: nat, n: nat) {
    forall k :: 0 <= k < n && k < DIRECT ==> ino[k] == DataAt(first, k)
  }

  ghost predicate SingleOk(ino: Inode, ind1: Option<PtrBlock>, first: nat, n: nat) {
    && (ind1.Some? <==> n > DIRECT)
    && (ind1.Some? ==> ino[12] == first + IND1
                       && forall k :: 0 <= k < PTRS && DIRECT + k < n ==> ind1.value[k] == DataAt(first, DIRECT + k))
  }

  /** The m-th second-level buffer. */
  ghost predicate SubOk(ind2: PtrBlock, sub: Option<PtrBlock>, m: nat, first: nat, n: nat)
    requires m < PTRS
  {
    && (sub.Some? <==> n > SINGLE_END + PTRS * m)
    && (sub.Some? ==> ind2[m] == SubAt(first, m)
                      && forall k :: 0 <= k < PTRS && SINGLE_END + PTRS * m + k < n
                                     ==> sub.value[k] == DataAt(first, SINGLE_END + PTRS * m + k))
  }

  ghost predicate DoubleOk(ino: Inode, ind2: Option<PtrBlock>, subs: Subs, first: nat, n: nat) {
    && (ind2.Some? <==> n > SINGLE_END)
    && (ind2.Some? ==> ino[13] == first + IND2)
    && (forall m :: 0 <= m < PTRS ==> SubOk(if ind2.Some? then ind2.value else EmptyPtrs(), subs[m], m, first, n))
  }

  lemma SingleStep(ino: Inode, ino': Inode, ind1: Option<PtrBlock>, first: nat, n: nat)
    requires SingleOk(ino, ind1, first, n) && DIRECT <= n < SINGLE_END
    requires ind1.Some? ==> ino'[12] == ino[12]
    requires ind1.None? ==> ino'[12] == DataAt(first, n) + 1
    ensures var p := if ind1.Some? then ind1.value else EmptyPtrs();
            SingleOk(ino', Some(SetPtr(p, n - DIRECT, DataAt(first, n))), first, n + 1)
  {
  }

  lemma SubStep(ind2: PtrBlock, sub: Option<PtrBlock>, m: nat, first: nat, n: nat, k: nat)
    requires m < PTRS && k < PTRS && n == SINGLE_END + PTRS * m + k && SubOk(ind2, sub, m, first, n)
    ensures var p := if sub.Some? then sub.value else EmptyPtrs();
            var ind2' := if sub.Some? then ind2 else SetPtr(ind2, m, SubAt(first, m));
            SubOk(ind2', Some(SetPtr(p, k, DataAt(first, n))), m, first, n + 1)
  {
  }

  /** Data block n lands in second-level buffer m; the others keep their state. */
  lemma DoubleStep(ino: Inode, ino': Inode, ind2: Option<PtrBlock>, subs: Subs, first: nat, n: nat, m: nat, k: nat)
    requires DoubleOk(ino, ind2, subs, first, n) && m < PTRS && k < PTRS && n == SINGLE_END + PTRS * m + k
    requires ino'[13] == if ind2.Some? then ino[13] else DataAt(first, n) + 1
    ensures var q := if ind2.Some? then ind2.value else EmptyPtrs();
            var p := if subs[m].Some? then subs[m].value else EmptyPtrs();
            var q' := if subs[m].Some? then q else SetPtr(q, m, SubAt(first, m));
            DoubleOk(ino', Some(q'), subs[m := Some(SetPtr(p, k, DataAt(first, n)))], first, n + 1)
  {
    var q := if ind2.Some? then ind2.value else EmptyPtrs();
    var p := if subs[m].Some? then subs[m].value else EmptyPtrs();
    var q' := if subs[m].Some? then q else SetPtr(q, m, SubAt(first, m));
    var subs' := subs[m := Some(SetPtr(p, k, DataAt(first, n)))];
    SubStep(q, subs[m], m, first, n, k);
    forall j | 0 <= j < PTRS ensures SubOk(q', subs'[j], j, first, n + 1) {
      assert SubOk(q, subs[j], j, first, n);
      if j < m {
        assert SINGLE_END + PTRS * j + PTRS <= n;
      }
    }
    if ind2.None? {
      assert n == SINGLE_END;
    }
  }

  // ----- the writer --------------------------------------------------------------------------------

  type Disk = map<nat, PtrBlock>

  /** What a reader does: follow direct, single- and double-indirect pointers. */
  function Resolve(ino: Inode, disk: Disk, k: nat): Option<nat> {
    if k < DIRECT then Some(ino[k])
    else if k < SINGLE_END then
      if ino[12] in disk then Some(disk[ino[12]][k - DIRECT]) else None
    else if k < MAX_BLOCKS && ino[13] in disk then
      var d := k - SINGLE_END;
      var sub := disk[ino[13]][d / PTRS];
      if sub in disk then Some(disk[sub][d % PTRS]) else None
    else None
  }

  /** The allocation loop: `data` is where each slice was written. */
  method WriteBlocks(nblocks: nat, first: nat)
      returns (ino: Inode, ind1: Option<PtrBlock>, ind2: Option<PtrBlock>, subs: Subs, data: seq<nat>, next: nat)
    requires nblocks <= MAX_BLOCKS
    ensures |data| == nblocks && (forall k :: 0 <= k < nblocks ==> data[k] == DataAt(first, k))
    ensures next == DataAt(first, nblocks)
    ensures DirectOk(ino, first, nblocks) && SingleOk(ino, ind1, first, nblocks) && DoubleOk(ino, ind2, subs, first, nblocks)
  {
    hide DoubleOk, SingleOk, SubAt;
    ino, ind1, ind2, subs := seq(15, i => 0), None, None, seq(PTRS, i => None);
    data, next := [], first;
    Start(ino, subs, first);
    var i := 0;
    while i < nblocks
      invariant 0 <= i <= nblocks && |data| == i && next == DataAt(first, i)
      invariant forall k :: 0 <= k < i ==> data[k] == DataAt(first, k)
      invariant DirectOk(ino, first, i) && SingleOk(ino, ind1, first, i) && DoubleOk(ino, ind2, subs, first, i)
    {
      var b := next;
      next := next + 1;
      data := data + [b];
      DataStep(first, i);
      if i < DIRECT {
        EarlySteps(ino, ino[i := b], ind1, ind2, subs, first, i);
        ino := ino[i := b];
      } else if i < SINGLE_END {
        ino, ind1, next := PlaceSingle(ino, ind1, ind2, subs, first, i, b, next);
      } else {
        ino, ind2, subs, next := PlaceDouble(ino, ind1, ind2, subs, first, i, b, next);
      }
      i := i + 1;
    }
  }

  lemma Start(ino: Inode, subs: Subs, first: nat)
    requires forall m :: 0 <= m < PTRS ==> subs[m].None?
    ensures DataAt(first, 0) == first && DirectOk(ino, first, 0) && SingleOk(ino, None, first, 0) && DoubleOk(ino, None, subs, first, 0)
  {
  }

  lemma EarlySteps(ino: Inode, ino': Inode, ind1: Option<PtrBlock>, ind2: Option<PtrBlock>, subs: Subs, first: nat, n: nat)
    requires SingleOk(ino, ind1, first, n) && DoubleOk(ino, ind2, subs, first, n) && n < DIRECT
    ensures SingleOk(ino', ind1, first, n + 1) && DoubleOk(ino', ind2, subs, first, n + 1)
  {
    forall m | 0 <= m < PTRS ensures SubOk(EmptyPtrs(), subs[m], m, first, n + 1) {
      assert SubOk(EmptyPtrs(), subs[m], m, first, n);
    }
  }

  /** Data block n went to b; a pointer block, if one is needed, comes next. */
  method PlaceSingle(ino: Inode, ind1: Option<PtrBlock>, ghost ind2: Option<PtrBlock>, ghost subs: Subs, ghost first: nat, n: nat, b: nat, next0: nat)
      returns (ino': Inode, ind1': Option<PtrBlock>, next: nat)
    requires DirectOk(ino, first, n) && SingleOk(ino, ind1, first, n) && DoubleOk(ino, ind2, subs, first, n) && DIRECT <= n < SINGLE_END
    requires b == DataAt(first, n) && next0 == b + 1
    ensures DirectOk(ino', first, n + 1) && SingleOk(ino', ind1', first, n + 1) && DoubleOk(ino', ind2, subs, first, n + 1)
    ensures next == DataAt(first, n + 1)
  {
    next := next0;
    DataStep(first, n);
    ino' := ino;
    var p := EmptyPtrs();
    if ind1.None? {
      ino' := ino[12 := next];
      next := next + 1;
    } else {
      p := ind1.value;
    }
    ind1' := Some(SetPtr(p, n - DIRECT, b));
    SingleStep(ino, ino', ind1, first, n);
    DoubleIdle(ino, ino', ind2, subs, first, n);
  }

  lemma DoubleIdle(ino: Inode, ino': Inode, ind2: Option<PtrBlock>, subs: Subs, first: nat, n: nat)
    requires DoubleOk(ino, ind2, subs, first, n) && n < SINGLE_END
    ensures DoubleOk(ino', ind2, subs, first, n + 1)
  {
    forall m | 0 <= m < PTRS ensures SubOk(EmptyPtrs(), subs[m], m, first, n + 1) {
      assert SubOk(EmptyPtrs(), subs[m], m, first, n);
    }
  }

  method PlaceDouble(ino: Inode, ghost ind1: Option<PtrBlock>, ind2: Option<PtrBlock>, subs: Subs, ghost first: nat, n: nat, b: nat, next0: nat)
      returns (ino': Inode, ind2': Option<PtrBlock>, subs': Subs, next: nat)
    requires DirectOk(ino, first, n) && SingleOk(ino, ind1, first, n) && DoubleOk(ino, ind2, subs, first, n)
    requires SINGLE_END <= n < MAX_BLOCKS && b == DataAt(first, n) && next0 == b + 1
    ensures DirectOk(ino', first, n + 1) && SingleOk(ino', ind1, first, n + 1) && DoubleOk(ino', ind2', subs', first, n + 1)
    ensures next == DataAt(first, n + 1)
  {
    next := next0;
    DataStep(first, n);
    var d := n - SINGLE_END;
    var m, k := d / PTRS, d % PTRS;
    MasterIndex(ino, ind2, subs, first, n, m, k);
    ino' := ino;
    var q, p := EmptyPtrs(), EmptyPtrs();
    if ind2.None? {
      ino' := ino[13 := next];
      next := next + 1;
    } else {
      q := ind2.value;
    }
    if subs[m].None? {
      q := SetPtr(q, m, next);
      next := next + 1;
    } else {
      p := subs[m].value;
    }
    DoubleStep(ino, ino', ind2, subs, first, n, m, k);
    ind2' := Some(q);
    subs' := subs[m := Some(SetPtr(p, k, b))];
  }

  /** Which of the two allocations happen at data block n. */
  lemma MasterIndex(ino: Inode, ind2: Option<PtrBlock>, subs: Subs, first: nat, n: nat, m: nat, k: nat)
    requires DoubleOk(ino, ind2, subs, first, n) && SINGLE_END <= n < MAX_BLOCKS
    requires m == (n - SINGLE_END) / PTRS && k == (n - SINGLE_END) % PTRS
    ensures m < PTRS && n == SINGLE_END + PTRS * m + k
    ensures ind2.None? <==> n == SINGLE_END
    ensures subs[m].None? <==> k == 0
    ensures k == 0 ==> SubAt(first, m) == DataAt(first, n) + if n == SINGLE_END then 2 else 1
  {
    assert SubOk(if ind2.Some? then ind2.value else EmptyPtrs(), subs[m], m, first, n);
  }

  // ----- flushing the pointer blocks ----------------------------------------------------------------

  /** p is the disk block of one of the first `subs` second-level blocks. */
  ghost predicate IsSub(first: nat, subs: nat, p: nat) {
    exists m :: 0 <= m < subs && p == SubAt(first, m)
  }

  ghost predicate IsPtr(first: nat, p: nat) {
    p == first + IND1 || p == first + IND2 || IsSub(first, PTRS, p)
  }

  method FlushSubs(ghost ino: Inode, disk0: Disk, ind2: PtrBlock, subs: Subs, ghost first: nat, ghost n: nat) returns (disk: Disk)
    requires DoubleOk(ino, Some(ind2), subs, first, n)
    ensures forall m :: 0 <= m < PTRS && subs[m].Some? ==> ind2[m] in disk && disk[ind2[m]] == subs[m].value
    ensures forall p :: p in disk0 && !IsSub(first, PTRS, p) ==> p in disk && disk[p] == disk0[p]
    ensures forall p :: p in disk ==> p in disk0 || IsSub(first, PTRS, p)
  {
    disk := disk0;
    var i := 0;
    hide DataAt;
    while i < PTRS
      invariant 0 <= i <= PTRS
      invariant forall m :: 0 <= m < i && subs[m].Some? ==> ind2[m] in disk && disk[ind2[m]] == subs[m].value
      invariant forall p :: p in disk0 && !IsSub(first, PTRS, p) ==> p in disk && disk[p] == disk0[p]
      invariant forall p :: p in disk ==> p in disk0 || IsSub(first, PTRS, p)
    {
      assert SubOk(ind2, subs[i], i, first, n);
      if subs[i].Some? {
        forall m | 0 <= m < i && subs[m].Some? ensures ind2[m] != ind2[i] {
          assert SubOk(ind2, subs[m], m, first, n);
          SubsIncrease(first, m, i);
        }
        assert IsSub(first, PTRS, ind2[i]);
        disk := disk[ind2[i] := subs[i].value];
      }
      i := i + 1;
    }
  }

  method Flush(ino: Inode, ind1: Option<PtrBlock>, ind2: Option<PtrBlock>, subs: Subs, ghost first: nat, ghost n: nat) returns (disk: Disk)
    requires SingleOk(ino, ind1, first, n) && DoubleOk(ino, ind2, subs, first, n)
    ensures ind1.Some? ==> ino[12] in disk && disk[ino[12]] == ind1.value
    ensures ind2.Some? ==> ino[13] in disk && disk[ino[13]] == ind2.value
    ensures ind2.Some? ==> forall m :: 0 <= m < PTRS && subs[m].Some? ==>
              ind2.value[m] in disk && disk[ind2.value[m]] == subs[m].value
    ensures forall p :: p in disk ==> IsPtr(first, p)
  {
    disk := map[];
    if ind1.Some? {
      disk := disk[ino[12] := ind1.value];
    }
    if ind2.Some? {
      NotASub(first);
      var disk0 := disk;
      disk := FlushSubs(ino, disk, ind2.value, subs, first, n);
      forall m | 0 <= m < PTRS && subs[m].Some? ensures ind2.value[m] != ino[13] {
        assert SubOk(ind2.value, subs[m], m, first, n);
        assert IsSub(first, PTRS, ind2.value[m]);
      }
      disk := disk[ino[13] := ind2.value];
    }
  }

  lemma NotASub(first: nat)
    ensures !IsSub(first, PTRS, first + IND1) && !IsSub(first, PTRS, first + IND2)
  {
    forall m | 0 <= m < PTRS ensures SubAt(first, m) != first + IND1 && SubAt(first, m) != first + IND2 {
      AllDistinct(first, 0, 0, m, m);
    }
  }

  /** The pointer blocks a file of n blocks uses are allocated, written and
      pairwise different. */
  ghost predicate PtrsDistinct(ino: Inode, disk: Disk, first: nat, next: nat, n: nat) {
    && (n > DIRECT ==> ino[12] in disk && first <= ino[12] < next)
    && (n > SINGLE_END ==>
          && ino[13] in disk && first <= ino[13] < next && ino[13] != ino[12]
          && (forall m :: 0 <= m < PTRS && SINGLE_END + PTRS * m < n ==>
                var p := disk[ino[13]][m]; p in disk && first <= p < next && p != ino[12] && p != ino[13])
          && (forall l, m :: 0 <= l < m < PTRS && SINGLE_END + PTRS * m < n ==> disk[ino[13]][l] != disk[ino[13]][m]))
  }

  lemma PtrsApart(ino: Inode, ind1: Option<PtrBlock>, ind2: Option<PtrBlock>, subs: Subs, disk: Disk, first: nat, n: nat)
    requires SingleOk(ino, ind1, first, n) && DoubleOk(ino, ind2, subs, first, n) && n <= MAX_BLOCKS
    requires ind1.Some? ==> ino[12] in disk
    requires ind2.Some? ==> ino[13] in disk && disk[ino[13]] == ind2.value
    requires ind2.Some? ==> forall m :: 0 <= m < PTRS && subs[m].Some? ==> ind2.value[m] in disk
    ensures PtrsDistinct(ino, disk, first, DataAt(first, n), n)
  {
    if n > DIRECT {
      DataGrows(first, DIRECT + 1, n);
    }
    if n > SINGLE_END {
      DataGrows(first, SINGLE_END + 1, n);
      forall m | 0 <= m < PTRS && SINGLE_END + PTRS * m < n
        ensures subs[m].Some? && disk[ino[13]][m] == SubAt(first, m) && first <= SubAt(first, m) < DataAt(first, n)
        ensures SubAt(first, m) != ino[12] && SubAt(first, m) != ino[13]
      {
        assert SubOk(ind2.value, subs[m], m, first, n);
        SubBelow(first, m, n);
        AllDistinct(first, 0, 0, m, m);
      }
      forall l, m | 0 <= l < m < PTRS && SINGLE_END + PTRS * m < n ensures disk[ino[13]][l] != disk[ino[13]][m] {
        AllDistinct(first, 0, 0, l, m);
      }
    }
  }

  lemma SubBelow(first: nat, m: nat, n: nat)
    requires SINGLE_END + PTRS * m < n
    ensures first <= SubAt(first, m) < DataAt(first, n)
  {
    SubBetween(first, m);
    DataGrows(first, SINGLE_END + PTRS * m + 1, n);
  }

  /** Following the pointers for logical block k reaches the block slice k was
      written to, and no block is used twice: data blocks differ from each other
      and from pointer blocks, and pointer blocks from each other. */
  method WriteLegacy(nblocks: nat, first: nat) returns (ino: Inode, disk: Disk, data: seq<nat>, next: nat)
    requires nblocks <= MAX_BLOCKS
    ensures |data| == nblocks && forall k :: 0 <= k < nblocks ==> Resolve(ino, disk, k) == Some(data[k])
    ensures forall j, k :: 0 <= j < k < nblocks ==> data[j] != data[k]
    ensures forall k :: 0 <= k < nblocks ==> first <= data[k] < next && data[k] !in disk
    ensures PtrsDistinct(ino, disk, first, next, nblocks)
  {
    var ind1, ind2, subs;
    ino, ind1, ind2, subs, data, next := WriteBlocks(nblocks, first);
    disk := Flush(ino, ind1, ind2, subs, first, nblocks);
    hide DataAt, SubAt, DoubleOk, SingleOk, DirectOk, Resolve, IsPtr, PtrsDistinct;
    PtrsApart(ino, ind1, ind2, subs, disk, first, nblocks);
    forall k | 0 <= k < nblocks ensures Resolve(ino, disk, k) == Some(data[k]) {
      Reaches(ino, ind1, ind2, subs, disk, first, nblocks, k);
    }
    forall j, k | 0 <= j < k < nblocks ensures data[j] != data[k] {
      DataIncreases(first, j, k);
    }
    forall k | 0 <= k < nblocks ensures first <= data[k] < next && data[k] !in disk {
      DataIncreases(first, k, nblocks);
      DataNotPtr(first, k);
    }
  }

  lemma DataNotPtr(first: nat, k: nat)
    ensures !IsPtr(first, DataAt(first, k)) && DataAt(first, k) >= first
  {
    forall m | 0 <= m < PTRS ensures DataAt(first, k) != SubAt(first, m) {
      AllDistinct(first, k, k, m, m);
    }
    AllDistinct(first, k, k, 0, 0);
  }

  lemma Reaches(ino: Inode, ind1: Option<PtrBlock>, ind2: Option<PtrBlock>, subs: Subs, disk: Disk, first: nat, n: nat, k: nat)
    requires DirectOk(ino, first, n) && SingleOk(ino, ind1, first, n) && DoubleOk(ino, ind2, subs, first, n)
    requires ind1.Some? ==> ino[12] in disk && disk[ino[12]] == ind1.value
    requires ind2.Some? ==> ino[13] in disk && disk[ino[13]] == ind2.value
    requires ind2.Some? ==> forall m :: 0 <= m < PTRS && subs[m].Some? ==>
               ind2.value[m] in disk && disk[ind2.value[m]] == subs[m].value
    requires k < n <= MAX_BLOCKS
    ensures Resolve(ino, disk, k) == Some(DataAt(first, k))
  {
    hide DataAt, SubAt;
    if k >= SINGLE_END {
      var d := k - SINGLE_END;
      assert d == PTRS * (d / PTRS) + d % PTRS && d / PTRS < PTRS;
      assert SubOk(ind2.value, subs[d / PTRS], d / PTRS, first, n);
      assert subs[d / PTRS].value[d % PTRS] == DataAt(first, SINGLE_END + PTRS * (d / PTRS) + d % PTRS);
    } else if k >= DIRECT {
      assert ind1.value[k - DIRECT] == DataAt(first, DIRECT + (k - DIRECT));
    }
  }
}
