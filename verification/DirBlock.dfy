/** The directory block populate_directory of tools/mkdisk.c encodes, and the
    rec_len walk that reads it back. */
module DirBlock {
  import opened Basics

  const SIZE: nat := 4096
  const HEADER: nat := 8

  datatype Record = Record(inode: nat, recLen: nat, kind: nat, name: seq<Byte>)

  predicate Encodable(r: Record) {
    r.inode < 0x1_0000_0000 && r.recLen < 0x1_0000 && r.kind < 256 && |r.name| < 256
  }

  // ----- bytes ----------------------------------------------------------------------------

  function Le(v: nat, n: nat): (r: seq<Byte>)
    ensures |r| == n
  {
    if n == 0 then [] else [v % 256] + Le(v / 256, n - 1)
  }

  function FromLe(b: seq<Byte>): nat {
    if b == [] then 0 else b[0] + 256 * FromLe(b[1..])
  }

  lemma Le2(v: nat)
    requires v < 0x1_0000
    ensures FromLe(Le(v, 2)) == v
  {
    assert Le(v, 2) == [v % 256, v / 256 % 256];
    assert FromLe([v / 256 % 256]) == v / 256 % 256;
  }

  lemma Le4(v: nat)
    requires v < 0x1_0000_0000
    ensures FromLe(Le(v, 4)) == v
  {
    hide Le, FromLe;
    LeCons(v, 4);
    LeCons(v / 256, 3);
    Le2(v / 256 / 256);
  }

  lemma LeCons(v: nat, n: nat)
    requires n > 0
    ensures FromLe(Le(v, n)) == v % 256 + 256 * FromLe(Le(v / 256, n - 1))
  {
    assert Le(v, n)[1..] == Le(v / 256, n - 1);
  }

  /** The 8-byte header and the name. */
  function Encode(r: Record): (b: seq<Byte>)
    requires Encodable(r)
    ensures |b| == HEADER + |r.name|
  {
    Le(r.inode, 4) + Le(r.recLen, 2) + [|r.name|, r.kind] + r.name
  }

  /** Two bytes, the low one first. */
  function Low(a: int, b: int): int {
    a + 0x100 * b
  }

  /** The bytes of struct ext4_dir_entry: inode and rec_len little-endian, then
      name_len, file_type and the name. */
  lemma EncodeIs(r: Record)
    requires Encodable(r)
    ensures var b := Encode(r);
            && |b| == 8 + |r.name|
            && r.inode == Low(b[0], b[1]) + 0x1_0000 * Low(b[2], b[3])
            && r.recLen == Low(b[4], b[5]) && b[6] == |r.name| && b[7] == r.kind && b[8..] == r.name
  {
    Le4(r.inode);
    Le2(r.recLen);
    var i, l := Le(r.inode, 4), Le(r.recLen, 2);
    FourOf(i);
    TwoOf(l);
    hide Le, FromLe;
    var b := Encode(r);
    assert b[0] == i[0] && b[1] == i[1] && b[2] == i[2] && b[3] == i[3] && b[4] == l[0] && b[5] == l[1];
  }

  lemma TwoOf(b: seq<Byte>)
    requires |b| == 2
    ensures FromLe(b) == Low(b[0], b[1])
  {
    assert FromLe(b[1..]) == b[1] + 256 * FromLe(b[1..][1..]);
  }

  lemma FourOf(b: seq<Byte>)
    requires |b| == 4
    ensures FromLe(b) == Low(b[0], b[1]) + 0x1_0000 * Low(b[2], b[3])
  {
    TwoOf(b[2..]);
    assert b[1..][1..] == b[2..];
    assert FromLe(b[1..]) == b[1] + 256 * FromLe(b[2..]);
  }

  function NameLen(b: seq<Byte>, off: nat): nat
    requires off + HEADER <= |b|
  {
    b[off + 6]
  }

  /** The record at offset off; a name that runs past the block is cut off. */
  function Decode(b: seq<Byte>, off: nat): Record
    requires off + HEADER <= |b|
  {
    var n := NameLen(b, off);
    var end := if off + HEADER + n <= |b| then off + HEADER + n else |b|;
    Record(FromLe(b[off..off + 4]), FromLe(b[off + 4..off + 6]), b[off + 7], b[off + HEADER..end])
  }

  function Splice(b: seq<Byte>, off: nat, s: seq<Byte>): (r: seq<Byte>)
    requires off + |s| <= |b|
    ensures |r| == |b|
  {
    b[..off] + s + b[off + |s|..]
  }

  lemma DecodeSpliced(b: seq<Byte>, off: nat, r: Record)
    requires Encodable(r) && off + HEADER + |r.name| <= |b|
    ensures Decode(Splice(b, off, Encode(r)), off) == r
  {
    var s := Encode(r);
    var b' := Splice(b, off, s);
    assert forall i :: 0 <= i < |s| ==> b'[off + i] == s[i];
    assert b'[off..off + 4] == Le(r.inode, 4);
    assert b'[off + 4..off + 6] == Le(r.recLen, 2);
    assert b'[off + HEADER..off + HEADER + |r.name|] == r.name;
    Le4(r.inode);
    Le2(r.recLen);
  }

  /** A record is decoded from its own bytes only. */
  lemma DecodeSame(b: seq<Byte>, b': seq<Byte>, off: nat)
    requires |b'| == |b| && off + HEADER <= |b| && off + HEADER + NameLen(b, off) <= |b|
    requires forall i :: off <= i < off + HEADER + NameLen(b, off) ==> b'[i] == b[i]
    ensures Decode(b', off) == Decode(b, off)
  {
    var n := NameLen(b, off);
    assert NameLen(b', off) == n;
    assert b'[off..off + 4] == b[off..off + 4];
    assert b'[off + 4..off + 6] == b[off + 4..off + 6];
    assert b'[off + HEADER..off + HEADER + n] == b[off + HEADER..off + HEADER + n];
  }

  /** Rewriting rec_len changes nothing else of the record. */
  lemma DecodePatched(b: seq<Byte>, off: nat, len: nat)
    requires off + HEADER <= |b| && off + HEADER + NameLen(b, off) <= |b| && len < 0x1_0000
    ensures Decode(Splice(b, off + 4, Le(len, 2)), off) == Decode(b, off).(recLen := len)
  {
    var b' := Splice(b, off + 4, Le(len, 2));
    var n := NameLen(b, off);
    Le2(len);
    assert NameLen(b', off) == n;
    assert b'[off..off + 4] == b[off..off + 4];
    assert b'[off + 4..off + 6] == Le(len, 2);
    assert b'[off + HEADER..off + HEADER + n] == b[off + HEADER..off + HEADER + n];
  }

  // ----- layout ---------------------------------------------------------------------------------

  /** (8 + nlen + 3) & ~3 */
  function RecLen(nlen: nat): (r: nat)
    ensures r % 4 == 0 && HEADER + nlen <= r < HEADER + nlen + 4
  {
    (HEADER + nlen + 3) / 4 * 4
  }

  /** Where record number k starts. */
  function Off(rs: seq<Record>, k: nat): nat
    requires k <= |rs|
  {
    if k == 0 then 0 else Off(rs, k - 1) + rs[k - 1].recLen
  }

  predicate WellSized(r: Record) {
    Encodable(r) && r.recLen >= HEADER + |r.name|
  }

  /** Record r sits at offset off. */
  ghost predicate Present(b: seq<Byte>, off: nat, r: Record) {
    && |b| == SIZE && WellSized(r) && off + r.recLen <= SIZE
    && NameLen(b, off) == |r.name| && Decode(b, off) == r
  }

  /** The block holds these records one after the other from offset 0. */
  ghost predicate Holds(b: seq<Byte>, rs: seq<Record>) {
    && |b| == SIZE && Off(rs, |rs|) <= SIZE
    && (forall k :: 0 <= k < |rs| ==> Present(b, Off(rs, k), rs[k]))
  }

  lemma {:induction false} OffPrefix(rs: seq<Record>, rs': seq<Record>, k: nat)
    requires k <= |rs| && k <= |rs'| && forall j :: 0 <= j < k ==> rs'[j] == rs[j]
    ensures Off(rs', k) == Off(rs, k)
  {
    if k > 0 {
      OffPrefix(rs, rs', k - 1);
    }
  }

  lemma {:induction false} OffOrder(rs: seq<Record>, j: nat, k: nat)
    requires j < k <= |rs|
    ensures Off(rs, j) + rs[j].recLen <= Off(rs, k)
    decreases k
  {
    if j < k - 1 {
      OffOrder(rs, j, k - 1);
    }
  }

  lemma At(b: seq<Byte>, rs: seq<Record>, k: nat)
    requires Holds(b, rs) && k < |rs|
    ensures Present(b, Off(rs, k), rs[k]) && Off(rs, k + 1) == Off(rs, k) + rs[k].recLen
    ensures Off(rs, k) + HEADER <= SIZE && rs[k].recLen >= HEADER
  {
    hide Decode, NameLen;
  }

  /** The same, put together from the single records. */
  lemma Assemble(b: seq<Byte>, rs: seq<Record>)
    requires |b| == SIZE && Off(rs, |rs|) <= SIZE
    requires forall k :: 0 <= k < |rs| ==> Present(b, Off(rs, k), rs[k])
    ensures Holds(b, rs)
  {
    hide Present;
  }

  lemma PresentSpliced(b: seq<Byte>, off: nat, r: Record)
    requires |b| == SIZE && WellSized(r) && off + r.recLen <= SIZE
    ensures Present(Splice(b, off, Encode(r)), off, r)
  {
    DecodeSpliced(b, off, r);
    assert Splice(b, off, Encode(r))[off + 6] == Encode(r)[6];
  }

  lemma PresentKept(b: seq<Byte>, b': seq<Byte>, cut: nat, off: nat, r: Record)
    requires Present(b, off, r) && |b'| == SIZE && cut <= SIZE && off + r.recLen <= cut && b'[..cut] == b[..cut]
    ensures Present(b', off, r)
  {
    forall i | off <= i < off + r.recLen ensures b'[i] == b[i] {
      assert b'[..cut][i] == b[..cut][i];
    }
    DecodeSame(b, b', off);
  }

  lemma SplicePrefix(b: seq<Byte>, off: nat, s: seq<Byte>, cut: nat)
    requires off + |s| <= |b| && cut <= off
    ensures Splice(b, off, s)[..cut] == b[..cut]
  {
  }

  /** The first n records stay where they are while bytes behind them change. */
  lemma PrefixKept(b: seq<Byte>, b': seq<Byte>, rs: seq<Record>, rs': seq<Record>, n: nat, k: nat)
    requires Holds(b, rs) && k < n <= |rs| && n <= |rs'| && forall j :: 0 <= j < n ==> rs'[j] == rs[j]
    requires |b'| == SIZE && Off(rs, n) <= SIZE && b'[..Off(rs, n)] == b[..Off(rs, n)]
    ensures Present(b', Off(rs', k), rs'[k])
  {
    hide Present;
    OffPrefix(rs, rs', k);
    OffOrder(rs, k, n);
    assert Present(b, Off(rs, k), rs[k]);
    PresentKept(b, b', Off(rs, n), Off(rs, k), rs[k]);
  }

  lemma HoldsSize(b: seq<Byte>, rs: seq<Record>)
    requires Holds(b, rs)
    ensures |b| == SIZE && Off(rs, |rs|) <= SIZE
  {
  }

  /** Appending a record behind the ones in place. */
  lemma HoldsSnoc(b: seq<Byte>, rs: seq<Record>, r: Record)
    requires Holds(b, rs) && WellSized(r) && Off(rs, |rs|) + r.recLen <= SIZE
    ensures Holds(Splice(b, Off(rs, |rs|), Encode(r)), rs + [r])
  {
    hide Holds;
    HoldsSize(b, rs);
    var off := Off(rs, |rs|);
    var b' := Splice(b, off, Encode(r));
    SplicePrefix(b, off, Encode(r), off);
    PresentSpliced(b, off, r);
    SnocAssembles(b, b', rs, r);
  }

  lemma SnocAssembles(b: seq<Byte>, b': seq<Byte>, rs: seq<Record>, r: Record)
    requires Holds(b, rs) && |b'| == SIZE && Off(rs, |rs|) + r.recLen <= SIZE
    requires b'[..Off(rs, |rs|)] == b[..Off(rs, |rs|)] && Present(b', Off(rs, |rs|), r)
    ensures Holds(b', rs + [r])
  {
    hide Present, Holds;
    var rs' := rs + [r];
    OffPrefix(rs, rs', |rs|);
    forall k | 0 <= k < |rs'| ensures Present(b', Off(rs', k), rs'[k]) {
      if k < |rs| {
        PrefixKept(b, b', rs, rs', |rs|, k);
      }
    }
    Assemble(b', rs');
  }

  lemma LastFits(b: seq<Byte>, rs: seq<Record>)
    requires Holds(b, rs) && rs != []
    ensures Off(rs, |rs| - 1) + HEADER <= SIZE
  {
    assert Present(b, Off(rs, |rs| - 1), rs[|rs| - 1]);
  }

  lemma PresentPatched(b: seq<Byte>, off: nat, r: Record)
    requires Present(b, off, r)
    ensures Present(Splice(b, off + 4, Le(SIZE - off, 2)), off, r.(recLen := SIZE - off))
  {
    DecodePatched(b, off, SIZE - off);
  }

  /** Stretching the last record to the end of the block. */
  lemma HoldsPatched(b: seq<Byte>, rs: seq<Record>, last: nat)
    requires Holds(b, rs) && rs != [] && last == Off(rs, |rs| - 1) && last + HEADER <= SIZE
    ensures var r := rs[|rs| - 1].(recLen := SIZE - last);
            var rs' := rs[|rs| - 1 := r];
            Holds(Splice(b, last + 4, Le(SIZE - last, 2)), rs') && Off(rs', |rs'|) == SIZE
  {
    var n := |rs| - 1;
    var r := rs[n].(recLen := SIZE - last);
    var b', rs' := Splice(b, last + 4, Le(SIZE - last, 2)), rs[n := r];
    OffPrefix(rs, rs', n);
    assert Present(b, last, rs[n]);
    PresentPatched(b, last, rs[n]);
    SplicePrefix(b, last + 4, Le(SIZE - last, 2), last);
    hide Present, Splice, Le;
    forall k | 0 <= k < |rs'| ensures Present(b', Off(rs', k), rs'[k]) {
      if k < n {
        PrefixKept(b, b', rs, rs', n, k);
      }
    }
  }

  // ----- the reader --------------------------------------------------------------------------------

  /** Walk rec_len from off to the end of the block; None if it does not end there. */
  function Walk(b: seq<Byte>, off: nat): (r: Walked)
    requires |b| == SIZE
    decreases SIZE - off
  {
    if off == SIZE then Complete([])
    else if off + HEADER > SIZE then Broken
    else
      var r := Decode(b, off);
      if r.recLen < HEADER || off + r.recLen > SIZE then Broken
      else match Walk(b, off + r.recLen)
        case Broken => Broken
        case Complete(rs) => Complete([r] + rs)
  }

  datatype Walked = Broken | Complete(records: seq<Record>)

  lemma {:induction false} WalkHolds(b: seq<Byte>, rs: seq<Record>, k: nat)
    requires Holds(b, rs) && Off(rs, |rs|) == SIZE && k <= |rs| && |b| == SIZE
    ensures Walk(b, Off(rs, k)) == Complete(rs[k..])
    decreases |rs| - k
  {
    hide Holds, Present, Decode;
    HoldsSize(b, rs);
    if k < |rs| {
      At(b, rs, k);
      WalkHolds(b, rs, k + 1);
      WalkOne(b, Off(rs, k), rs[k]);
      assert rs[k..] == [rs[k]] + rs[k + 1..];
    }
  }

  lemma WalkOne(b: seq<Byte>, off: nat, r: Record)
    requires Present(b, off, r)
    ensures Walk(b, off) == match Walk(b, off + r.recLen) case Broken => Broken case Complete(rs) => Complete([r] + rs)
  {
    hide Decode;
  }

  // ----- the encoder ------------------------------------------------------------------------------

  datatype Child = Child(inode: nat, kind: nat, name: seq<Byte>)

  const DIR_KIND: nat := 2
  const DOT: seq<Byte> := [46]
  const DOTDOT: seq<Byte> := [46, 46]

  predicate Storable(c: Child) {
    c.inode < 0x1_0000_0000 && c.kind < 256 && |c.name| < 256
  }

  function RecordOf(c: Child): Record {
    Record(c.inode, RecLen(|c.name|), c.kind, c.name)
  }

  /** ".", "..", then every child, each as short as its name allows. */
  function Records(self: nat, parent: nat, cs: seq<Child>): (r: seq<Record>)
    ensures |r| == 2 + |cs|
    ensures r[0] == Record(self, 12, DIR_KIND, DOT) && r[1] == Record(parent, 12, DIR_KIND, DOTDOT)
    ensures forall k :: 0 <= k < |cs| ==> r[2 + k] == RecordOf(cs[k])
  {
    [Record(self, 12, DIR_KIND, DOT), Record(parent, 12, DIR_KIND, DOTDOT)]
    + seq(|cs|, k requires 0 <= k < |cs| => RecordOf(cs[k]))
  }

  /** Write one record in place. */
  method PutRecord(b: array<Byte>, off: nat, r: Record)
    requires b.Length == SIZE && Encodable(r) && off + HEADER + |r.name| <= SIZE
    modifies b
    ensures b[..] == Splice(old(b[..]), off, Encode(r))
  {
    var s := Encode(r);
    forall i | 0 <= i < |s| {
      b[off + i] := s[i];
    }
  }

  lemma PresentLen(b: seq<Byte>, off: nat, r: Record)
    requires Present(b, off, r)
    ensures |b| == SIZE && off + HEADER <= SIZE && FromLe(b[off + 4..off + 6]) == r.recLen
  {
    hide FromLe, Encodable;
  }

  lemma OffStrict(b: seq<Byte>, rs: seq<Record>, k: nat)
    requires Holds(b, rs) && k < |rs|
    ensures Off(rs, k) < Off(rs, |rs|) && |b| == SIZE && Off(rs, k) + HEADER <= SIZE
    ensures FromLe(b[Off(rs, k) + 4..Off(rs, k) + 6]) == rs[k].recLen
  {
    hide Holds, Present, FromLe, Off;
    At(b, rs, k);
    PresentLen(b, Off(rs, k), rs[k]);
    OffOrder(rs, k, |rs|);
  }

  /** The loop that looks for the last record by following rec_len. */
  method FindLast(b: array<Byte>, off: nat, ghost rs: seq<Record>) returns (last: nat)
    requires b.Length == SIZE && Holds(b[..], rs) && rs != [] && off == Off(rs, |rs|)
    ensures last == Off(rs, |rs| - 1)
  {
    hide Holds;
    last := 0;
    var cur := 0;
    ghost var k := 0;
    OffStrict(b[..], rs, 0);
    while cur < off
      invariant 0 <= k <= |rs| && cur == Off(rs, k) && (k < |rs| ==> cur < off)
      invariant k > 0 ==> last == Off(rs, k - 1)
      decreases |rs| - k
    {
      assert k < |rs|;
      OffStrict(b[..], rs, k);
      last := cur;
      assert b[cur + 4..cur + 6] == b[..][cur + 4..cur + 6];
      cur := cur + FromLe(b[cur + 4..cur + 6]);
      k := k + 1;
      if k < |rs| {
        OffStrict(b[..], rs, k);
      }
    }
  }

  lemma {:induction false} OffStep(self: nat, parent: nat, cs: seq<Child>, k: nat)
    requires k < |cs|
    ensures Records(self, parent, cs[..k + 1]) == Records(self, parent, cs[..k]) + [RecordOf(cs[k])]
    ensures Off(Records(self, parent, cs[..k + 1]), 3 + k) == Off(Records(self, parent, cs[..k]), 2 + k) + RecLen(|cs[k].name|)
    ensures Off(Records(self, parent, cs[..k + 1]), 3 + k) <= Off(Records(self, parent, cs), 2 + |cs|)
  {
    hide Records, Off, RecordOf;
    var all := Records(self, parent, cs);
    RecordsPrefix(self, parent, cs, k);
    RecordsPrefix(self, parent, cs, k + 1);
    assert all[2 + k] == RecordOf(cs[k]);
    assert all[..3 + k] == all[..2 + k] + [all[2 + k]];
    OffSlice(all, 2 + k);
    OffSlice(all, 3 + k);
    OffUnfold(all, 2 + k);
    RecordLen(cs[k]);
    if k + 1 < |cs| {
      OffOrder(all, 3 + k, 2 + |cs|);
    }
  }

  lemma OffSlice(rs: seq<Record>, n: nat)
    requires n <= |rs|
    ensures Off(rs[..n], n) == Off(rs, n)
  {
    OffPrefix(rs, rs[..n], n);
  }

  lemma RecordLen(c: Child)
    ensures RecordOf(c).recLen == RecLen(|c.name|)
  {
  }

  lemma OffUnfold(rs: seq<Record>, k: nat)
    requires k < |rs|
    ensures Off(rs, k + 1) == Off(rs, k) + rs[k].recLen
  {
  }

  lemma RecordsPrefix(self: nat, parent: nat, cs: seq<Child>, k: nat)
    requires k <= |cs|
    ensures Records(self, parent, cs[..k]) == Records(self, parent, cs)[..2 + k]
  {
  }

  method PutDots(b: array<Byte>, self: nat, parent: nat)
    requires b.Length == SIZE && self < 0x1_0000_0000 && parent < 0x1_0000_0000
    modifies b
    ensures Holds(b[..], Records(self, parent, [])) && Off(Records(self, parent, []), 2) == 24
  {
    hide Holds, Splice, Encode;
    HoldsNothing(b[..]);
    Fits(self, parent);
    var dot, dotdot := Record(self, 12, DIR_KIND, DOT), Record(parent, 12, DIR_KIND, DOTDOT);
    HoldsSnoc(b[..], [], dot);
    PutRecord(b, 0, dot);
    HoldsSnoc(b[..], [] + [dot], dotdot);
    PutRecord(b, 12, dotdot);
    assert [] + [dot] + [dotdot] == Records(self, parent, []);
  }

  /** The readdir loop: one record per child.  The source does not look whether
      the next record still lies inside the block; here the loop stops where it
      does not, and `inside` says so. */
  method PutChildren(b: array<Byte>, self: nat, parent: nat, cs: seq<Child>) returns (off: nat, inside: bool)
    requires b.Length == SIZE && Holds(b[..], Records(self, parent, [])) && Off(Records(self, parent, []), 2) == 24
    requires forall k :: 0 <= k < |cs| ==> Storable(cs[k])
    modifies b
    ensures inside <==> Off(Records(self, parent, cs), 2 + |cs|) <= SIZE
    ensures inside ==> Holds(b[..], Records(self, parent, cs)) && off == Off(Records(self, parent, cs), 2 + |cs|)
  {
    hide Holds, Splice, Encode, Records, Off, RecordOf;
    off := 24;
    var i := 0;
    assert cs[..0] == [];
    while i < |cs|
      invariant 0 <= i <= |cs| && Holds(b[..], Records(self, parent, cs[..i])) && off <= SIZE
      invariant off == Off(Records(self, parent, cs[..i]), 2 + i)
    {
      OffStep(self, parent, cs, i);
      InsideIff(self, parent, cs[..i], |cs[i].name|);
      if off + HEADER + |cs[i].name| > SIZE {
        return off, false;
      }
      RecordShape(cs[i]);
      HoldsSnoc(b[..], Records(self, parent, cs[..i]), RecordOf(cs[i]));
      PutRecord(b, off, RecordOf(cs[i]));
      off := off + RecLen(|cs[i].name|);
      i := i + 1;
    }
    assert cs[..i] == cs;
    return off, true;
  }

  lemma RecordShape(c: Child)
    requires Storable(c)
    ensures var r := RecordOf(c); WellSized(r) && r.recLen == RecLen(|c.name|) && r.name == c.name
  {
  }

  /** The bytes of the next record stay inside the block if and only if its whole
      length does: records and block are multiples of 4. */
  lemma InsideIff(self: nat, parent: nat, cs: seq<Child>, nlen: nat)
    ensures var off := Off(Records(self, parent, cs), 2 + |cs|);
            off % 4 == 0 && (off + HEADER + nlen <= SIZE <==> off + RecLen(nlen) <= SIZE)
  {
    hide Off, Records, RecLen;
    var rs := Records(self, parent, cs);
    forall j | 0 <= j < |rs| ensures rs[j].recLen % 4 == 0 {
      assert j >= 2 ==> rs[2 + (j - 2)] == RecordOf(cs[j - 2]);
    }
    OffAligned(rs, |rs|);
    RoundIff(Off(rs, |rs|), nlen);
  }

  lemma RoundIff(off: nat, nlen: nat)
    requires off % 4 == 0
    ensures off + HEADER + nlen <= SIZE <==> off + RecLen(nlen) <= SIZE
  {
    var q := RecLen(nlen);
    hide RecLen;
    assert (off + q) % 4 == 0;
  }

  /** The records as read back: the last one takes the rest of the block. */
  function Final(rs: seq<Record>): (r: seq<Record>)
    requires rs != [] && Off(rs, |rs| - 1) <= SIZE
  {
    rs[|rs| - 1 := rs[|rs| - 1].(recLen := SIZE - Off(rs, |rs| - 1))]
  }

  /** Encode a directory.  All writes stay inside the block if and only if the
      records fit; then walking rec_len from 0 yields ".", ".." and every child
      once, in order, and ends exactly at 4096. */
  method EncodeDirectory(b: array<Byte>, self: nat, parent: nat, cs: seq<Child>) returns (inside: bool)
    requires b.Length == SIZE && self < 0x1_0000_0000 && parent < 0x1_0000_0000
    requires forall k :: 0 <= k < |cs| ==> Storable(cs[k])
    modifies b
    ensures inside <==> Off(Records(self, parent, cs), 2 + |cs|) <= SIZE
    ensures inside ==> Off(Records(self, parent, cs), 1 + |cs|) <= SIZE
                       && Walk(b[..], 0) == Complete(Final(Records(self, parent, cs)))
  {
    hide Holds, Walk, Off;
    PutDots(b, self, parent);
    var off: nat;
    off, inside := PutChildren(b, self, parent, cs);
    if inside {
      LastFits(b[..], Records(self, parent, cs));
      Stretch(b, off, Records(self, parent, cs));
    }
  }

  lemma {:induction false} OffAligned(rs: seq<Record>, k: nat)
    requires k <= |rs| && forall j :: 0 <= j < k ==> rs[j].recLen % 4 == 0
    ensures Off(rs, k) % 4 == 0
  {
    if k > 0 {
      OffAligned(rs, k - 1);
    }
  }

  /** Every record read back starts on a 4-byte boundary, has a length that is a
      multiple of 4, and has room for its name. */
  lemma RecordsAligned(self: nat, parent: nat, cs: seq<Child>, k: nat)
    requires Off(Records(self, parent, cs), 2 + |cs|) <= SIZE && k < 2 + |cs|
    ensures Off(Records(self, parent, cs), 1 + |cs|) <= SIZE
    ensures var r := Final(Records(self, parent, cs));
            Off(r, k) % 4 == 0 && r[k].recLen % 4 == 0 && r[k].recLen >= HEADER + |r[k].name|
  {
    hide Off, Records;
    var rs := Records(self, parent, cs);
    forall j | 0 <= j < |rs| ensures rs[j].recLen % 4 == 0 && rs[j].recLen >= HEADER + |rs[j].name| {
      assert j >= 2 ==> rs[2 + (j - 2)] == RecordOf(cs[j - 2]);
    }
    OffOrder(rs, |rs| - 1, |rs|);
    OffAligned(rs, |rs| - 1);
    OffAligned(Final(rs), k);
  }

  lemma HoldsNothing(b: seq<Byte>)
    requires |b| == SIZE
    ensures Holds(b, [])
  {
  }

  lemma Fits(self: nat, parent: nat)
    ensures var r := Record(self, 12, DIR_KIND, DOT);
            Off([] + [r], 1) == 12 && Off([], 0) == 0 && Off([] + [r] + [Record(parent, 12, DIR_KIND, DOTDOT)], 2) == 24
  {
    var r := Record(self, 12, DIR_KIND, DOT);
    assert Off([] + [r] + [Record(parent, 12, DIR_KIND, DOTDOT)], 1) == 12;
  }

  /** Find the last record and give it the rest of the block. */
  method Stretch(b: array<Byte>, off: nat, ghost rs: seq<Record>)
    requires b.Length == SIZE && Holds(b[..], rs) && rs != [] && off == Off(rs, |rs|)
    modifies b
    ensures Off(rs, |rs| - 1) <= SIZE && Walk(b[..], 0) == Complete(Final(rs))
  {
    hide Holds, Walk, Off, Le;
    var last := FindLast(b, off, rs);
    LastFits(b[..], rs);
    HoldsPatched(b[..], rs, last);
    Patch(b, last + 4, Le(SIZE - last, 2));
    ghost var rs' := rs[|rs| - 1 := rs[|rs| - 1].(recLen := SIZE - last)];
    WalkAll(b[..], rs');
  }

  lemma WalkAll(b: seq<Byte>, rs: seq<Record>)
    requires Holds(b, rs) && Off(rs, |rs|) == SIZE && |b| == SIZE
    ensures Walk(b, 0) == Complete(rs)
  {
    WalkHolds(b, rs, 0);
    assert rs[0..] == rs;
  }

  method Patch(b: array<Byte>, at: nat, s: seq<Byte>)
    requires |s| == 2 && at + 2 <= b.Length
    modifies b
    ensures b[..] == Splice(old(b[..]), at, s)
  {
    b[at], b[at + 1] := s[0], s[1];
  }
}
