/** plm_buffer_t of include/api/pl_mpeg.h as a view on a stream of bits. */
module BitBuffer {
  import opened Basics

  type Bit = b: int | 0 <= b < 2

  // ----- bits, most significant first ------------------------------------------------------

  function BitAt(s: seq<Byte>, i: nat): Bit
    requires i < 8 * |s|
  {
    s[i / 8] / Pow2(7 - i % 8) % 2
  }

  function BitsOf(s: seq<Byte>): (r: seq<Bit>)
    ensures |r| == 8 * |s| && forall i :: 0 <= i < |r| ==> r[i] == BitAt(s, i)
  {
    seq(8 * |s|, i requires 0 <= i < 8 * |s| => BitAt(s, i))
  }

  function Value(bits: seq<Bit>): nat {
    if bits == [] then 0 else 2 * Value(bits[..|bits| - 1]) + bits[|bits| - 1]
  }

  lemma BitsConcat(a: seq<Byte>, b: seq<Byte>)
    ensures BitsOf(a + b) == BitsOf(a) + BitsOf(b)
  {
    forall i | 0 <= i < 8 * |a + b| ensures BitsOf(a + b)[i] == (BitsOf(a) + BitsOf(b))[i] {
      if i >= 8 * |a| {
        assert (i - 8 * |a|) / 8 == i / 8 - |a| && (i - 8 * |a|) % 8 == i % 8;
      }
    }
  }

  /** Dropping whole bytes drops their bits. */
  lemma BitsDrop(s: seq<Byte>, p: nat, i: nat)
    requires p <= |s| && 8 * p <= i <= 8 * |s|
    ensures BitsOf(s[p..])[i - 8 * p..] == BitsOf(s)[i..]
  {
    BitsConcat(s[..p], s[p..]);
    assert s[..p] + s[p..] == s;
  }

  lemma {:induction false} ValueConcat(a: seq<Bit>, b: seq<Bit>)
    ensures Value(a + b) == Value(a) * Pow2(|b|) + Value(b)
  {
    if b == [] {
      assert a + b == a;
    } else {
      var b1 := b[..|b| - 1];
      ValueConcat(a, b1);
      assert (a + b)[..|a + b| - 1] == a + b1;
      assert Value(a) * Pow2(|b|) == 2 * (Value(a) * Pow2(|b1|)) by { MulTwo(Value(a), Pow2(|b1|)); }
    }
  }

  lemma ValueJoin(all: seq<Bit>, start: nat, mid: nat, n: nat)
    requires start <= mid && mid + n <= |all|
    ensures Value(all[start..mid + n]) == Value(all[start..mid]) * Pow2(n) + Value(all[mid..][..n])
  {
    hide Value, Pow2;
    ValueConcat(all[start..mid], all[mid..][..n]);
    assert all[start..mid] + all[mid..][..n] == all[start..mid + n];
  }

  lemma MulTwo(x: nat, y: nat)
    ensures x * (2 * y) == 2 * (x * y)
  {
  }

  // ----- the bits of one byte -----------------------------------------------------------------

  lemma PowTable()
    ensures Pow2(0) == 1 && Pow2(1) == 2 && Pow2(2) == 4 && Pow2(3) == 8 && Pow2(4) == 16
    ensures Pow2(5) == 32 && Pow2(6) == 64 && Pow2(7) == 128 && Pow2(8) == 256
  {
    assert Pow2(4) == 2 * Pow2(3) && Pow2(5) == 2 * Pow2(4) && Pow2(6) == 2 * Pow2(5);
    assert Pow2(7) == 2 * Pow2(6) && Pow2(8) == 2 * Pow2(7);
  }

  lemma MulGe(k: int, d: int)
    requires k >= 1 && d >= 0
    ensures k * d >= d
  {
    assert k * d == (k - 1) * d + d;
  }

  lemma MulZero(k: int, d: int)
    requires d > 0 && -d < k * d < d
    ensures k == 0
  {
    if k >= 1 {
      MulGe(k, d);
    } else if k <= -1 {
      MulGe(-k, d);
    }
  }

  lemma DivModUnique(x: nat, d: nat, q: nat, r: nat)
    requires d > 0 && x == q * d + r && r < d
    ensures x / d == q && x % d == r
  {
    assert x == x / d * d + x % d;
    assert (x / d - q) * d == x / d * d - q * d;
    MulZero(x / d - q, d);
  }

  /** One more bit at the low end. */
  lemma ModSplit(x: nat, n: nat)
    ensures x % Pow2(n + 1) == 2 * (x / 2 % Pow2(n)) + x % 2
  {
    var m := Pow2(n);
    var q, r := x / 2 / m, x / 2 % m;
    assert x / 2 == q * m + r;
    MulTwo(q, m);
    DivModUnique(x, 2 * m, q, 2 * r + x % 2);
  }

  lemma HalvePow(x: nat, n: nat)
    requires n <= 7
    ensures x / Pow2(n + 1) == x / Pow2(n) / 2
  {
    PowTable();
    hide Pow2;
    if
    case n == 0 => case n == 1 => case n == 2 => case n == 3 =>
    case n == 4 => case n == 5 => case n == 6 => case n == 7 =>
  }

  lemma ByteStep(b: Byte, n: nat, r: nat)
    requires n <= 7
    ensures b / Pow2(n) % Pow2(r + 1) == 2 * (b / Pow2(n + 1) % Pow2(r)) + b / Pow2(n) % 2
  {
    HalvePow(b, n);
    ModSplit(b / Pow2(n), r);
  }

  lemma LowBit(b: Byte, i: nat)
    requires i < 8
    ensures BitsOf([b])[i] == b / Pow2(7 - i) % 2
  {
    assert i / 8 == 0 && i % 8 == i;
  }

  /** Shifting and masking a byte picks out r consecutive bits. */
  lemma {:induction false} BitsOfByte(b: Byte, k: nat, r: nat)
    requires k + r <= 8
    ensures Value(BitsOf([b])[k..k + r]) == b / Pow2(8 - k - r) % Pow2(r)
    decreases r
  {
    if r > 0 {
      BitsOfByte(b, k, r - 1);
      LowBit(b, k + r - 1);
      ByteStep(b, 8 - k - r, r - 1);
      ValueSnoc(BitsOf([b]), k, r - 1);
      hide Pow2, BitsOf, Value;
    } else {
      assert BitsOf([b])[k..k] == [];
    }
  }

  lemma ValueSnoc(bits: seq<Bit>, k: nat, r: nat)
    requires k + r < |bits|
    ensures Value(bits[k..k + (r + 1)]) == 2 * Value(bits[k..k + r]) + bits[k + r]
  {
    assert bits[k..k + (r + 1)][..r] == bits[k..k + r];
  }

  // ----- the buffer -------------------------------------------------------------------------------

  function Flatten(chunks: seq<seq<Byte>>): seq<Byte> {
    if chunks == [] then [] else chunks[0] + Flatten(chunks[1..])
  }

  lemma UnreadAppend(kept: seq<Byte>, data: seq<Byte>, i: nat)
    requires i <= 8 * |kept|
    ensures BitsOf(kept + data)[i..] == BitsOf(kept)[i..] + BitsOf(data)
  {
    BitsConcat(kept, data);
  }

  // ----- start codes: 00 00 01 and the code, with one more byte in the buffer -------------------

  predicate StartAt(s: seq<Byte>, p: nat)
    requires p + 5 <= |s|
  {
    s[p] == 0 && s[p + 1] == 0 && s[p + 2] == 1
  }

  /** The first start code from p on, or -1. */
  function FirstStart(s: seq<Byte>, p: nat): (q: int)
    ensures q == -1 || (p <= q && q + 5 <= |s| && StartAt(s, q) && s[q] == 0 && s[q + 1] == 0 && s[q + 2] == 1)
    ensures forall k :: p <= k && k + 5 <= |s| && (q == -1 || k < q) ==> !StartAt(s, k)
    decreases |s| - p
  {
    if p + 5 > |s| then -1 else if StartAt(s, p) then p else FirstStart(s, p + 1)
  }

  /** The first one that carries `code`, the search resuming behind each other one. */
  function FindCode(s: seq<Byte>, p: nat, code: int): (q: int)
    ensures q == -1 || (p <= q && q + 5 <= |s| && StartAt(s, q) && s[q + 3] == code)
    decreases |s| - p
  {
    var q := FirstStart(s, p);
    if q == -1 || s[q + 3] == code then q else FindCode(s, q + 4, code)
  }

  ghost predicate NoneBefore(s: seq<Byte>, n: nat) {
    forall k :: 0 <= k < n && k + 5 <= |s| ==> !StartAt(s, k)
  }

  /** Where the first start code is, from what a scan saw. */
  lemma FirstStartIs(s: seq<Byte>, p: nat, q: nat)
    requires p <= q && q + 5 <= |s| && StartAt(s, q)
    requires forall k :: p <= k < q ==> !StartAt(s, k)
    ensures FirstStart(s, p) == q
  {
  }

  lemma NoStart(s: seq<Byte>, p: nat)
    requires forall k :: p <= k && k + 5 <= |s| ==> !StartAt(s, k)
    ensures FirstStart(s, p) == -1 && forall code :: FindCode(s, p, code) == -1
  {
  }

  /** A search of anything that begins with d resumes behind d. */
  ghost predicate Passed(d: seq<Byte>, code: int) {
    forall x: seq<Byte> :: FindCode(d + x, 0, code) == FindCode(d + x, |d|, code)
  }

  lemma PassedStep(d: seq<Byte>, s: seq<Byte>, q: nat, code: int)
    requires Passed(d, code) && FirstStart(s, 0) == q && s[q + 3] != code
    ensures Passed(d + s[..q + 4], code)
  {
    var d1 := d + s[..q + 4];
    forall x: seq<Byte> ensures FindCode(d1 + x, 0, code) == FindCode(d1 + x, |d1|, code) {
      PassedOne(d, s, q, code, x);
    }
  }

  /** Start codes move with the bytes. */
  lemma Shifted(d: seq<Byte>, s: seq<Byte>, n: nat, all: seq<Byte>, k: nat)
    requires n <= |s| && |d| + n <= |all| && all[|d|..|d| + n] == s[..n]
    requires |d| <= k && k - |d| + 3 <= n && k - |d| + 5 <= |s| && k + 5 <= |all|
    ensures StartAt(all, k) == StartAt(s, k - |d|)
  {
    var j := k - |d|;
    assert s[..n][j] == s[j] && s[..n][j + 1] == s[j + 1] && s[..n][j + 2] == s[j + 2];
  }

  lemma Resumes(s: seq<Byte>, p: nat, code: int)
    requires FirstStart(s, p) != -1 && s[FirstStart(s, p) + 3] != code
    ensures FindCode(s, p, code) == FindCode(s, FirstStart(s, p) + 4, code)
  {
  }

  /** The search of `all` behind d, where a code other than `code` comes next. */
  lemma StepOver(d: seq<Byte>, s: seq<Byte>, q: nat, code: int, all: seq<Byte>)
    requires FirstStart(s, 0) == q && s[q + 3] != code
    requires |d| + q + 4 <= |all| && all[|d|..|d| + (q + 4)] == s[..q + 4]
    ensures FindCode(all, |d|, code) == FindCode(all, |d| + q + 4, code)
  {
    hide StartAt, FindCode;
    var p := |d| + q;
    forall k | |d| <= k < p && k + 5 <= |all| ensures !StartAt(all, k) {
      Shifted(d, s, q + 4, all, k);
    }
    if |all| == p + 4 {
      NoStart(all, |d|);
      NoStart(all, p + 4);
    } else {
      Shifted(d, s, q + 4, all, p);
      FirstStartIs(all, |d|, p);
      assert all[p + 3] == s[..q + 4][q + 3];
      Resumes(all, |d|, code);
    }
  }

  lemma PassedOne(d: seq<Byte>, s: seq<Byte>, q: nat, code: int, x: seq<Byte>)
    requires Passed(d, code) && FirstStart(s, 0) == q && s[q + 3] != code
    ensures var d1 := d + s[..q + 4]; FindCode(d1 + x, 0, code) == FindCode(d1 + x, |d1|, code)
  {
    hide StartAt, FindCode, FirstStart;
    var all := d + s[..q + 4] + x;
    Regroup(d, s[..q + 4], x);
    assert all[|d|..|d| + (q + 4)] == s[..q + 4];
    StepOver(d, s, q, code, all);
  }

  /** The end of a search that resumes behind d. */
  lemma FoundBehind(d: seq<Byte>, s: seq<Byte>, code: int)
    requires Passed(d, code)
    requires FirstStart(s, 0) == -1 || s[FirstStart(s, 0) + 3] == code
    ensures FindCode(d + s, 0, code) == if FirstStart(s, 0) == -1 then -1 else |d| + FirstStart(s, 0)
  {
    var all, q := d + s, FirstStart(s, 0);
    forall k | |d| <= k && k + 5 <= |all| && (q == -1 || k < |d| + q) ensures !StartAt(all, k) {
      assert all[k] == s[k - |d|] && all[k + 1] == s[k + 1 - |d|] && all[k + 2] == s[k + 2 - |d|];
      assert !StartAt(s, k - |d|);
    }
    if q == -1 {
      NoStart(all, |d|);
    } else {
      var p := |d| + q;
      assert all[p] == s[q] && all[p + 1] == s[q + 1] && all[p + 2] == s[q + 2] && all[p + 3] == s[q + 3];
      FirstStartIs(all, |d|, p);
    }
  }

  /** Doubling the capacity makes room for n more bytes sooner or later, if and
      only if there is a capacity to double or nothing to make room for. */
  lemma DoublingEndsIff(capacity: nat, length: nat, n: nat)
    requires length <= capacity
    ensures (exists k: nat :: capacity * Pow2(k) - length >= n) <==> capacity > 0 || n == 0
  {
    if capacity > 0 {
      PowGrows(length + n);
      MulGe(capacity, Pow2(length + n));
      assert capacity * Pow2(length + n) - length >= n;
    } else if n == 0 {
      assert capacity * Pow2(0) - length >= n;
    } else {
      forall k: nat ensures capacity * Pow2(k) == 0 {
      }
    }
  }

  lemma {:induction false} PowGrows(n: nat)
    ensures Pow2(n) > n
  {
    if n > 0 {
      PowGrows(n - 1);
    }
  }

  class Buffer {
    /** Capacity is |bytes|; only the first `length` are meaningful. */
    var bytes: seq<Byte>
    var length: nat
    var bitIndex: nat
    /** PLM_BUFFER_MODE_FIXED_MEM: writes are refused. */
    const fixedMem: bool
    const ring: bool
    var discardRead: bool
    var totalSize: nat
    var hasEnded: bool
    /** Whether a load callback is set, and the chunks its calls will write. */
    const callback: bool
    var source: seq<seq<Byte>>

    ghost predicate Valid()
      reads this
    {
      && length <= |bytes| && bitIndex <= 8 * length && (callback ==> !fixedMem && |bytes| > 0)
    }

    /** The bits in the buffer that were not read yet. */
    function Unread(): seq<Bit>
      requires Valid()
      reads this
    {
      BitsOf(bytes[..length])[bitIndex..]
    }

    /** Everything still to come: unread bits, then what the callback will load. */
    function Stream(): seq<Bit>
      requires Valid()
      reads this
    {
      Unread() + BitsOf(Flatten(source))
    }

    /** The held bytes from the one being read. */
    function Tail(): seq<Byte>
      requires Valid()
      reads this
    {
      bytes[bitIndex / 8..length]
    }

    /** The bytes held or still to be loaded, from the next whole one. */
    function Ahead(): seq<Byte>
      requires Valid()
      reads this
    {
      bytes[(bitIndex + 7) / 8..length] + Flatten(source)
    }

    /** All bytes held or still to be loaded.  Positions in it are stable while
        nothing is discarded. */
    function Content(): seq<Byte>
      requires Valid()
      reads this
    {
      bytes[..length] + Flatten(source)
    }

    lemma StreamIsContent()
      requires Valid()
      ensures Stream() == BitsOf(Content())[bitIndex..]
    {
      UnreadAppend(bytes[..length], Flatten(source), bitIndex);
    }

    lemma AheadIsContent()
      requires Valid()
      ensures Ahead() == Content()[(bitIndex + 7) / 8..] == bytes[(bitIndex + 7) / 8..length] + Flatten(source)
    {
    }

    /** plm_buffer_create_with_capacity and _for_appending, and the load callback
        set afterwards, which writes: with a capacity of 0 it would not return. */
    constructor (capacity: nat, appending: bool, load: bool, chunks: seq<seq<Byte>>)
      requires load ==> capacity > 0
      ensures Valid() && Stream() == BitsOf(Flatten(chunks)) && discardRead == !appending && source == chunks
    {
      bytes := seq(capacity, i => 0);
      length, bitIndex, totalSize, hasEnded := 0, 0, 0, false;
      fixedMem, ring, discardRead := false, !appending, !appending;
      callback, source := load, chunks;
    }

    /** plm_buffer_create_with_memory. */
    constructor OverMemory(data: seq<Byte>)
      ensures Valid() && fixedMem && Stream() == BitsOf(data)
    {
      bytes, length, totalSize := data, |data|, |data|;
      bitIndex, hasEnded, discardRead := 0, false, false;
      fixedMem, ring, callback, source := true, false, false, [];
      new;
      assert bytes[..length] == data;
    }

    /** plm_buffer_discard_read_bytes: the read bytes go, the stream stays. */
    method DiscardReadBytes()
      requires Valid()
      modifies this`bytes, this`length, this`bitIndex
      ensures Valid() && Unread() == old(Unread()) && |bytes| == old(|bytes|)
      ensures 8 * length - bitIndex == 8 * old(length) - old(bitIndex)
      ensures Tail() == old(Tail()) && bitIndex % 8 == old(bitIndex) % 8
    {
      var bytePos := bitIndex / 8;
      if bytePos == length {
        bitIndex, length := 0, 0;
        assert BitsOf(bytes[..0])[0..] == [];
      } else if bytePos > 0 {
        BitsDrop(bytes[..length], bytePos, bitIndex);
        var kept := bytes[bytePos..length];
        assert bytes[..length][bytePos..] == kept;
        bytes := kept + bytes[|kept|..];
        bitIndex := bitIndex - 8 * bytePos;
        length := length - bytePos;
        assert bytes[..length] == kept;
      }
    }

    /** Append to a buffer that has the room. */
    method Append(data: seq<Byte>)
      requires Valid() && length + |data| <= |bytes|
      modifies this`bytes, this`length, this`hasEnded
      ensures Valid() && bytes[..length] == old(bytes[..length]) + data
      ensures Unread() == old(Unread()) + BitsOf(data) && Tail() == old(Tail()) + data
    {
      hide BitsOf;
      ghost var kept := bytes[..length];
      UnreadAppend(kept, data, bitIndex);
      bytes := bytes[..length] + data + bytes[length + |data|..];
      length := length + |data|;
      hasEnded := false;
      assert bytes[..length] == kept + data;
      assert Tail() == (kept + data)[bitIndex / 8..];
    }

    /** Double the capacity until n more bytes fit. */
    method Reserve(n: nat)
      requires Valid() && !fixedMem && (|bytes| > 0 || n == 0)
      modifies this`bytes
      ensures Valid() && length + n <= |bytes| && bytes[..length] == old(bytes[..length]) && Tail() == old(Tail())
    {
      if |bytes| - length < n {
        var size := 2 * |bytes|;
        while size - length < n
          invariant size > 0 && size >= |bytes|
          decreases n + length - size
        {
          size := 2 * size;
        }
        bytes := bytes + seq(size - |bytes|, i => 0);
      }
    }

    /** plm_buffer_write: make room, then append.  It returns at all only under the
        condition of DoublingEndsIff. */
    method Write(data: seq<Byte>) returns (n: nat)
      requires Valid() && (fixedMem || |bytes| > 0 || data == [])
      modifies this
      ensures Valid() && source == old(source) && discardRead == old(discardRead)
      ensures n == if fixedMem then 0 else |data|
      ensures Unread() == if fixedMem then old(Unread()) else old(Unread()) + BitsOf(data)
      ensures Tail() == (if fixedMem then old(Tail()) else old(Tail()) + data) && bitIndex % 8 == old(bitIndex) % 8
      ensures !discardRead && !fixedMem ==> bitIndex == old(bitIndex) && bytes[..length] == old(bytes[..length]) + data
    {
      hide BitsOf;
      if fixedMem {
        return 0;
      }
      if discardRead {
        DiscardReadBytes();
        if ring {
          totalSize := 0;
        }
      }
      Reserve(|data|);
      Append(data);
      return |data|;
    }

    /** The load callback: its next chunk is written. */
    method Load()
      requires Valid() && callback
      modifies this
      ensures Valid() && Stream() == old(Stream()) && discardRead == old(discardRead)
      ensures Tail() + Flatten(source) == old(Tail() + Flatten(source)) && bitIndex % 8 == old(bitIndex) % 8
      ensures !discardRead ==> bitIndex == old(bitIndex) && Content() == old(Content()) && length >= old(length)
    {
      if source == [] {
        return;
      }
      var chunk := source[0];
      ghost var rest := Flatten(source[1..]);
      BitsConcat(chunk, rest);
      assert Flatten(source) == chunk + rest;
      hide BitsOf, Flatten;
      Regroup(Unread(), BitsOf(chunk), BitsOf(rest));
      Regroup(Tail(), chunk, rest);
      Regroup(bytes[..length], chunk, rest);
      source := source[1..];
      var n := Write(chunk);
    }

    /** plm_buffer_has: enough bits, if need be after one call of the callback. */
    method Has(count: nat) returns (ok: bool)
      requires Valid()
      modifies this
      ensures Valid() && Stream() == old(Stream()) && discardRead == old(discardRead)
      ensures Tail() + Flatten(source) == old(Tail() + Flatten(source)) && bitIndex % 8 == old(bitIndex) % 8
      ensures ok <==> 8 * length - bitIndex >= count
      ensures 8 * old(length) - old(bitIndex) >= count ==>
                ok && bitIndex == old(bitIndex) && bytes == old(bytes) && length == old(length) && source == old(source)
      ensures !discardRead ==> bitIndex == old(bitIndex) && Content() == old(Content()) && length >= old(length)
    {
      hide BitsOf;
      if 8 * length - bitIndex >= count {
        return true;
      }
      if callback {
        Load();
        if 8 * length - bitIndex >= count {
          return true;
        }
      }
      if totalSize != 0 && length == totalSize {
        hasEnded := true;
      }
      return false;
    }

    /** One round of the read loop: the bits of the current byte, up to `count`. */
    method ReadInByte(count: nat) returns (read: nat, part: nat)
      requires Valid() && 0 < count <= 8 * length - bitIndex
      ensures 0 < read <= count && bitIndex + read <= 8 * length
      ensures part == Value(Unread()[..read])
    {
      hide BitsOf, Value, Pow2;
      var current := bytes[bitIndex / 8];
      var remaining := 8 - bitIndex % 8;
      read := if remaining < count then remaining else count;
      var shift := remaining - read;
      part := current / Pow2(shift) % Pow2(read);
      NextBits(bytes[..length], bitIndex, read);
    }

    /** The loop of plm_buffer_read. */
    method ReadBits(count: nat) returns (value: nat)
      requires Valid() && count <= 8 * length - bitIndex
      modifies this`bitIndex
      ensures Valid() && bitIndex == old(bitIndex) + count
      ensures value == Value(old(Unread())[..count]) && Unread() == old(Unread())[count..]
    {
      hide BitsOf, Value, Pow2;
      ghost var all, start := BitsOf(bytes[..length]), bitIndex;
      value := 0;
      var left := count;
      assert all[start..start] == [];
      ValueEmpty();
      while left > 0
        invariant 0 <= left <= count && Valid() && bitIndex == start + (count - left) && left <= 8 * length - bitIndex
        invariant value == Value(all[start..bitIndex])
      {
        var read, part := ReadInByte(left);
        ValueJoin(all, start, bitIndex, read);
        value := value * Pow2(read) + part;
        bitIndex := bitIndex + read;
        left := left - read;
      }
      assert all[start..][..count] == all[start..start + count];
    }

    /** plm_buffer_read.  `ok` is what plm_buffer_has answered. */
    method Read(count: nat) returns (value: nat, ghost ok: bool)
      requires Valid()
      modifies this
      ensures Valid() && discardRead == old(discardRead)
      ensures ok ==> count <= |old(Stream())| && value == Value(old(Stream())[..count]) && Stream() == old(Stream())[count..]
      ensures !ok ==> value == 0 && Stream() == old(Stream()) && 8 * length - bitIndex < count
      ensures 8 * old(length) - old(bitIndex) >= count ==>
                ok && bitIndex == old(bitIndex) + count && bytes == old(bytes) && length == old(length) && source == old(source)
    {
      hide BitsOf, Value, Flatten;
      var enough := Has(count);
      ok := enough;
      if !enough {
        return 0, ok;
      }
      Consume(Unread(), BitsOf(Flatten(source)), count);
      value := ReadBits(count);
    }

    /** plm_buffer_peek_non_zero: looks at the bits and puts the position back. */
    method PeekNonZero(count: nat) returns (nonZero: bool, ghost ok: bool)
      requires Valid()
      modifies this
      ensures Valid() && Stream() == old(Stream()) && discardRead == old(discardRead)
      ensures ok ==> count <= |Stream()| && (nonZero <==> Value(Stream()[..count]) != 0)
      ensures !ok ==> !nonZero && 8 * length - bitIndex < count
    {
      hide BitsOf, Value;
      var enough := Has(count);
      ok := enough;
      if !enough {
        return false, ok;
      }
      ghost var i, u := bitIndex, Unread();
      var val, got := Read(count);
      bitIndex := bitIndex - count;
      assert bitIndex == i && Unread() == u;
      return val != 0, ok;
    }

    /** plm_buffer_align: on to the next whole byte. */
    method Align()
      requires Valid()
      modifies this`bitIndex
      ensures Valid() && bitIndex % 8 == 0 && old(bitIndex) <= bitIndex < old(bitIndex) + 8
      ensures Ahead() == old(Ahead()) && Tail() + Flatten(source) == Ahead() && Content() == old(Content())
    {
      bitIndex := (bitIndex + 7) / 8 * 8;
    }

    lemma TailShort()
      requires Valid() && bitIndex % 8 == 0 && 8 * length - bitIndex < 40
      ensures |Tail()| < 5
    {
    }

    lemma TailBytes()
      requires Valid() && bitIndex % 8 == 0 && 8 * length - bitIndex >= 40
      ensures |Tail()| >= 5 && bitIndex / 8 + 5 <= length && Tail()[3] == bytes[bitIndex / 8 + 3]
      ensures var b := bitIndex / 8; StartAt(Tail(), 0) <==> bytes[b] == 0 && bytes[b + 1] == 0 && bytes[b + 2] == 1
    {
    }

    /** Step over n bytes that are held. */
    method SkipBytes(n: nat)
      requires Valid() && bitIndex % 8 == 0 && n <= |Tail()|
      modifies this`bitIndex
      ensures Valid() && bitIndex % 8 == 0 && Tail() == old(Tail())[n..]
      ensures Ahead() == Tail() + Flatten(source) && Content() == old(Content())
    {
      bitIndex := bitIndex + 8 * n;
    }

    /** plm_buffer_next_start_code.  `seen` are the bytes that were held from the
        start of the scan on, the callback's included. */
    method NextStartCode() returns (code: int, ghost seen: seq<Byte>)
      requires Valid()
      modifies this
      ensures Valid() && bitIndex % 8 == 0 && discardRead == old(discardRead)
      ensures seen + Flatten(source) == old(Ahead())
      ensures FirstStart(seen, 0) == -1 ==> code == -1 && |Tail()| < 5
      ensures FirstStart(seen, 0) != -1 ==>
                var q := FirstStart(seen, 0); code == seen[q + 3] && Tail() == seen[q + 4..]
      ensures code != -1 ==> Ahead() == Tail() + Flatten(source)
      ensures !discardRead ==> Content() == old(Content()) && length >= old(length)
    {
      hide BitsOf, Flatten, FirstStart, StartAt, NoneBefore, Stream, Unread, Content, Tail, Ahead;
      NoneYet(Ahead());
      Align();
      ghost var past: seq<Byte> := [];
      ghost var all := Ahead();
      while true
        invariant Valid() && bitIndex % 8 == 0 && discardRead == old(discardRead)
        invariant past + (Tail() + Flatten(source)) == all
        invariant NoneBefore(all, |past|)
        invariant !discardRead ==> Content() == old(Content()) && length >= old(length)
        decreases |all| - |past|
      {
        var enough := Has(40);
        ghost var tail := Tail();
        seen := past + tail;
        if !enough {
          TailShort();
          SeenNone(past, tail, Flatten(source), all);
          return -1, seen;
        }
        var b := bitIndex / 8;
        TailBytes();
        if bytes[b] == 0 && bytes[b + 1] == 0 && bytes[b + 2] == 1 {
          SeenOne(past, tail, Flatten(source), all);
          code := bytes[b + 3];
          SkipBytes(4);
          return;
        }
        SeenMore(past, tail, Flatten(source), all);
        past := past + [tail[0]];
        SkipBytes(1);
      }
    }

    /** plm_buffer_find_start_code. */
    method FindStartCode(code: int) returns (current: int, ghost seen: seq<Byte>)
      requires Valid()
      modifies this
      ensures Valid() && discardRead == old(discardRead)
      ensures seen + Flatten(source) == old(Ahead())
      ensures current == if FindCode(seen, 0, code) == -1 then -1 else code
      ensures FindCode(seen, 0, code) != -1 ==> bitIndex % 8 == 0 && Tail() == seen[FindCode(seen, 0, code) + 4..]
      ensures !discardRead ==> Content() == old(Content()) && length >= old(length)
    {
      hide BitsOf, Flatten, FirstStart, FindCode, Passed, StartAt;
      ghost var past: seq<Byte> := [];
      PassedNothing(code);
      while true
        invariant Valid() && discardRead == old(discardRead) && Passed(past, code)
        invariant past + Ahead() == old(Ahead())
        invariant !discardRead ==> Content() == old(Content()) && length >= old(length)
        decreases |Ahead()|
      {
        ghost var now;
        current, now := NextStartCode();
        if current == code || current == -1 {
          seen := past + now;
          Regroup(past, now, Flatten(source));
          FoundBehind(past, now, code);
          return;
        }
        ghost var q := FirstStart(now, 0);
        PassedStep(past, now, q, code);
        Resplit(past, now, Flatten(source), q + 4);
        past := past + now[..q + 4];
      }
    }

    /** plm_buffer_has_start_code: looks ahead and puts position and mode back,
        whatever the callback appended meanwhile. */
    method HasStartCode(code: int) returns (current: int)
      requires Valid()
      modifies this
      ensures Valid() && bitIndex == old(bitIndex) && discardRead == old(discardRead)
      ensures Stream() == old(Stream()) && Content() == old(Content()) && length >= old(length)
      ensures current == if FindCode(bytes[(bitIndex + 7) / 8..length], 0, code) == -1 then -1 else code
    {
      hide BitsOf, Flatten, FirstStart, FindCode, StartAt, Stream, Ahead;
      StreamIsContent();
      var i, discard := bitIndex, discardRead;
      discardRead := false;
      AheadIsContent();
      ghost var content, start := Content(), (bitIndex + 7) / 8;
      ghost var seen;
      current, seen := FindStartCode(code);
      bitIndex := i;
      discardRead := discard;
      StreamIsContent();
      AheadIsContent();
      Cancel(seen, bytes[start..length], Flatten(source));
    }
  }

  lemma Regroup<T>(a: seq<T>, b: seq<T>, c: seq<T>)
    ensures a + b + c == a + (b + c)
  {
  }

  lemma Resplit<T>(a: seq<T>, b: seq<T>, c: seq<T>, n: nat)
    requires n <= |b|
    ensures a + b[..n] + (b[n..] + c) == a + (b + c)
  {
  }

  lemma Cancel<T>(a: seq<T>, b: seq<T>, c: seq<T>)
    requires a + c == b + c
    ensures a == b
  {
    assert |a + c| == |b + c|;
    assert (a + c)[..|a|] == a && (b + c)[..|b|] == b;
  }

  lemma NoneYet(s: seq<Byte>)
    ensures NoneBefore(s, 0)
  {
  }

  lemma PassedNothing(code: int)
    ensures Passed([], code)
  {
  }

  // ----- what the scan knows: all == past + tail + rest and nothing starts in past -----------------

  lemma PrefixStart(s: seq<Byte>, e: seq<Byte>, k: nat)
    requires k + 5 <= |s|
    ensures StartAt(s + e, k) == StartAt(s, k)
  {
    var se := s + e;
    assert se[k] == s[k] && se[k + 1] == s[k + 1] && se[k + 2] == s[k + 2];
  }

  lemma SeenNone(past: seq<Byte>, tail: seq<Byte>, rest: seq<Byte>, all: seq<Byte>)
    requires all == past + (tail + rest) && |tail| < 5
    requires NoneBefore(all, |past|)
    ensures past + tail + rest == all && FirstStart(past + tail, 0) == -1
  {
    hide StartAt;
    Regroup(past, tail, rest);
    var s := past + tail;
    forall k | 0 <= k && k + 5 <= |s| ensures !StartAt(s, k) {
      PrefixStart(s, rest, k);
    }
    NoStart(s, 0);
  }

  lemma SeenOne(past: seq<Byte>, tail: seq<Byte>, rest: seq<Byte>, all: seq<Byte>)
    requires all == past + (tail + rest) && |tail| >= 5 && StartAt(tail, 0)
    requires NoneBefore(all, |past|)
    ensures past + tail + rest == all && FirstStart(past + tail, 0) == |past|
    ensures (past + tail)[|past| + 3] == tail[3] && (past + tail)[|past| + 4..] == tail[4..]
  {
    Regroup(past, tail, rest);
    var s := past + tail;
    forall k | 0 <= k < |past| ensures !StartAt(s, k) {
      PrefixStart(s, rest, k);
    }
    assert s[|past|] == tail[0] && s[|past| + 1] == tail[1] && s[|past| + 2] == tail[2];
    FirstStartIs(s, 0, |past|);
  }

  lemma SeenMore(past: seq<Byte>, tail: seq<Byte>, rest: seq<Byte>, all: seq<Byte>)
    requires all == past + (tail + rest) && |tail| >= 5 && !StartAt(tail, 0)
    requires NoneBefore(all, |past|)
    ensures (past + [tail[0]]) + (tail[1..] + rest) == all
    ensures NoneBefore(all, |past| + 1)
  {
    assert all[|past|] == tail[0] && all[|past| + 1] == tail[1] && all[|past| + 2] == tail[2];
  }

  lemma ValueEmpty()
    ensures Value([]) == 0
  {
  }

  /** Taking from the unread bits takes from the stream. */
  lemma Consume(u: seq<Bit>, rest: seq<Bit>, n: nat)
    requires n <= |u|
    ensures (u + rest)[..n] == u[..n] && (u + rest)[n..] == u[n..] + rest
  {
  }

  /** Shift and mask of the current byte give the next bits. */
  lemma NextBits(s: seq<Byte>, i: nat, read: nat)
    requires i % 8 + read <= 8 && i + read <= 8 * |s| && i < 8 * |s|
    ensures s[i / 8] / Pow2(8 - i % 8 - read) % Pow2(read) == Value(BitsOf(s)[i..][..read])
  {
    InByte(s, i, read);
    BitsOfByte(s[i / 8], i % 8, read);
    hide BitsOf, Value, Pow2;
    assert BitsOf(s)[i..][..read] == BitsOf(s)[i..i + read];
  }

  lemma InByte(s: seq<Byte>, i: nat, read: nat)
    requires i % 8 + read <= 8 && i + read <= 8 * |s| && i < 8 * |s|
    ensures BitsOf(s)[i..i + read] == BitsOf([s[i / 8]])[i % 8..i % 8 + read]
  {
    var a, b := BitsOf(s)[i..i + read], BitsOf([s[i / 8]])[i % 8..i % 8 + read];
    forall k | 0 <= k < read ensures a[k] == b[k] {
      SameBit(s, i, k);
      assert a[k] == BitsOf(s)[i + k] && b[k] == BitsOf([s[i / 8]])[i % 8 + k];
    }
  }

  lemma SameBit(s: seq<Byte>, i: nat, k: nat)
    requires i % 8 + k < 8 && i + k < 8 * |s|
    ensures BitsOf(s)[i + k] == BitsOf([s[i / 8]])[i % 8 + k]
  {
    hide Pow2;
    SameByte(i, k);
  }

  lemma SameByte(i: nat, k: nat)
    requires i % 8 + k < 8
    ensures (i + k) / 8 == i / 8 && (i + k) % 8 == i % 8 + k && (i % 8 + k) / 8 == 0 && (i % 8 + k) % 8 == i % 8 + k
  {
  }
}
