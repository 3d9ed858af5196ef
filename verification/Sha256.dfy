/** The streaming SHA-256 of tools/mkdisk.c around an arbitrary compression
    function: what it computes does not depend on how the message was cut up. */
module Sha256 {
  import opened Basics

  type Word = w: int | 0 <= w < 0x1_0000_0000
  type Words = s: seq<Word> | |s| == 8 witness [0, 0, 0, 0, 0, 0, 0, 0]
  /** sha256_block: eight words and 64 message bytes to eight words. */
  type Compress = (Words, seq<Byte>) -> Words

  const TWO_64: int := 0x1_0000_0000_0000_0000

  const INIT: Words := [0x6a09e667, 0xbb67ae85, 0x3c6ef372, 0xa54ff53a, 0x510e527f, 0x9b05688c, 0x1f83d9ab, 0x5be0cd19]

  // ----- the reference: section 5.1.1 and 6.2 of FIPS 180-4 --------------------------------

  /** Fold the compression function over whole 64-byte blocks. */
  function Blocks(f: Compress, h: Words, m: seq<Byte>): Words
    requires |m| % 64 == 0
    decreases |m|
  {
    if m == [] then h else Blocks(f, f(h, m[..64]), m[64..])
  }

  function Zeros(n: nat): (r: seq<Byte>)
    ensures |r| == n && forall i :: 0 <= i < n ==> r[i] == 0
  {
    seq(n, i => 0)
  }

  /** v as n bytes, most significant first. */
  function BigEndian(v: nat, n: nat): (r: seq<Byte>)
    ensures |r| == n
    decreases n
  {
    if n == 0 then [] else BigEndian(v / 256, n - 1) + [v % 256]
  }

  function FromBigEndian(b: seq<Byte>): nat {
    if b == [] then 0 else 256 * FromBigEndian(b[..|b| - 1]) + b[|b| - 1]
  }

  /** How many zero bytes follow the 0x80. */
  function PadZeros(len: nat): (k: nat)
    ensures k < 64 && (len + 1 + k) % 64 == 56
  {
    (119 - len % 64) % 64
  }

  function Pad(m: seq<Byte>): (r: seq<Byte>)
    ensures |r| % 64 == 0
  {
    EightMore(|m| + 1 + PadZeros(|m|));
    m + [0x80] + Zeros(PadZeros(|m|)) + BigEndian(|m| * 8 % TWO_64, 8)
  }

  lemma EightMore(n: nat)
    requires n % 64 == 56
    ensures (n + 8) % 64 == 0
  {
  }

  function Output(h: Words): seq<Byte> {
    BigEndian(h[0], 4) + BigEndian(h[1], 4) + BigEndian(h[2], 4) + BigEndian(h[3], 4) +
    BigEndian(h[4], 4) + BigEndian(h[5], 4) + BigEndian(h[6], 4) + BigEndian(h[7], 4)
  }

  function Digest(f: Compress, m: seq<Byte>): seq<Byte> {
    Output(Blocks(f, INIT, Pad(m)))
  }

  /** Word i is at bytes 4i to 4i + 3 of the output, most significant byte first. */
  lemma OutputIs(h: Words, i: nat)
    requires i < 8
    ensures |Output(h)| == 32
    ensures Output(h)[4 * i] == h[i] / 0x100_0000 && Output(h)[4 * i + 1] == h[i] / 0x1_0000 % 256
    ensures Output(h)[4 * i + 2] == h[i] / 0x100 % 256 && Output(h)[4 * i + 3] == h[i] % 256
  {
    hide BigEndian, Output;
    WordAt(h, i);
    FourBytes(h[i]);
    Quarter(Output(h), 4 * i, BigEndian(h[i], 4));
  }

  lemma Quarter(s: seq<Byte>, at: nat, w: seq<Byte>)
    requires at + 4 <= |s| && s[at..at + 4] == w
    ensures s[at] == w[0] && s[at + 1] == w[1] && s[at + 2] == w[2] && s[at + 3] == w[3]
  {
  }

  lemma WordAt(h: Words, i: nat)
    requires i < 8
    ensures |Output(h)| == 32 && Output(h)[4 * i..4 * i + 4] == BigEndian(h[i], 4)
  {
    hide BigEndian;
  }

  lemma FourBytes(v: Word)
    ensures BigEndian(v, 4) == [v / 0x100_0000, v / 0x1_0000 % 256, v / 0x100 % 256, v % 256]
  {
    assert v / 256 / 256 == v / 0x1_0000 && v / 0x1_0000 / 256 == v / 0x100_0000 < 256;
    OneByte(v, 3);
    OneByte(v / 0x100, 2);
    OneByte(v / 0x1_0000, 1);
    OneByte(v / 0x100_0000, 0);
    hide BigEndian;
    assert BigEndian(v / 0x100_0000 / 256, 0) == [];
  }

  lemma OneByte(v: nat, n: nat)
    ensures BigEndian(v, n + 1) == BigEndian(v / 256, n) + [v % 256]
  {
  }

  /** The digest, word by word. */
  lemma DigestIs(f: Compress, m: seq<Byte>, i: nat)
    requires i < 8
    ensures var h := Blocks(f, INIT, Pad(m));
            var d := Digest(f, m);
            && |d| == 32 && d[4 * i] == h[i] / 0x100_0000 && d[4 * i + 1] == h[i] / 0x1_0000 % 256
            && d[4 * i + 2] == h[i] / 0x100 % 256 && d[4 * i + 3] == h[i] % 256
  {
    hide Output, Blocks, Pad;
    OutputIs(Blocks(f, INIT, Pad(m)), i);
  }

  const PRIMES: seq<nat> := [2, 3, 5, 7, 11, 13, 17, 19]

  /** Section 5.3.3 of FIPS 180-4: the first 32 bits of the fractional parts of the
      square roots of the first eight primes.  `r` is the root in units of 2^-32. */
  lemma InitIsRoots(i: nat) returns (r: nat)
    requires i < 8
    ensures r * r <= PRIMES[i] * TWO_64 < (r + 1) * (r + 1) && INIT[i] == r % 0x1_0000_0000
  {
    var whole: seq<nat> := [1, 1, 2, 2, 3, 3, 4, 4];
    var fraction: nat := INIT[i];
    r := whole[i] * 0x1_0000_0000 + fraction;
    if
    case i == 0 => case i == 1 => case i == 2 => case i == 3 =>
    case i == 4 => case i == 5 => case i == 6 => case i == 7 =>
  }

  // ----- the padding is the one of the standard -----------------------------------------------

  function Pow256(n: nat): nat {
    if n == 0 then 1 else 256 * Pow256(n - 1)
  }

  lemma {:induction false} BigEndianInverse(v: nat, n: nat)
    requires v < Pow256(n)
    ensures FromBigEndian(BigEndian(v, n)) == v
  {
    if n > 0 {
      BigEndianInverse(v / 256, n - 1);
      assert BigEndian(v, n)[..n - 1] == BigEndian(v / 256, n - 1);
    }
  }

  /** A length in bytes that is 448 bits modulo 512. */
  predicate Aligned(bytes: nat) {
    8 * bytes % 512 == 448
  }

  lemma AlignedIff(n: nat)
    ensures Aligned(n) <==> n % 64 == 56
  {
  }

  lemma LeastZeros(len: nat)
    ensures Aligned(len + 1 + PadZeros(len))
    ensures forall n :: len + 1 <= n < len + 1 + PadZeros(len) ==> !Aligned(n)
  {
    AlignedIff(len + 1 + PadZeros(len));
    forall n | len + 1 <= n < len + 1 + PadZeros(len) ensures !Aligned(n) {
      AlignedIff(n);
      ModDiff(n, len + 1 + PadZeros(len));
    }
  }

  lemma ModDiff(a: nat, b: nat)
    requires a < b < a + 64
    ensures a % 64 != b % 64
  {
    assert b - a == 64 * (b / 64 - a / 64) + (b % 64 - a % 64);
  }

  lemma ModNext(n: nat)
    ensures (n + 1) % 64 == if n % 64 == 63 then 0 else n % 64 + 1
  {
  }

  lemma Pow256Of8()
    ensures Pow256(8) == TWO_64
  {
    assert Pow256(4) == 0x1_0000_0000;
    assert Pow256(6) == 256 * (256 * Pow256(4)) && Pow256(8) == 256 * (256 * Pow256(6));
  }

  lemma PadOfShort(m: seq<Byte>)
    requires |m| < 0x2000_0000_0000_0000
    ensures Pad(m) == m + [0x80] + Zeros(PadZeros(|m|)) + BigEndian(|m| * 8, 8)
  {
    hide BigEndian, Zeros, PadZeros;
    SmallMod(|m| * 8);
  }

  lemma SmallMod(x: int)
    requires 0 <= x < TWO_64
    ensures x % TWO_64 == x
  {
  }

  lemma PadShape(m: seq<Byte>, z: seq<Byte>, l: seq<Byte>)
    requires |l| == 8 && forall i :: 0 <= i < |z| ==> z[i] == 0
    ensures var p := m + [0x80] + z + l;
            && |p| == |m| + 9 + |z| && p[..|m|] == m && p[|m|] == 0x80 && p[|p| - 8..] == l
            && (forall i :: |m| < i < |m| + 1 + |z| ==> p[i] == 0)
  {
  }

  /** For messages under 2^61 bytes: the message, the 0x80, the least number of
      zeros that makes the length 448 bits modulo 512, the length in bits. */
  lemma PaddingIsStandard(m: seq<Byte>)
    requires |m| < 0x2000_0000_0000_0000
    ensures var k := PadZeros(|m|);
            var p := Pad(m);
            && |p| == |m| + 9 + k && p[..|m|] == m && p[|m|] == 0x80
            && (forall i :: |m| < i < |m| + 1 + k ==> p[i] == 0)
            && Aligned(|m| + 1 + k)
            && (forall n :: |m| + 1 <= n < |m| + 1 + k ==> !Aligned(n))
            && FromBigEndian(p[|p| - 8..]) == 8 * |m|
  {
    LeastZeros(|m|);
    Pow256Of8();
    BigEndianInverse(|m| * 8, 8);
    PadOfShort(m);
    hide BigEndian, Pow256, FromBigEndian, PadZeros, Aligned, Pad;
    PadShape(m, Zeros(PadZeros(|m|)), BigEndian(|m| * 8, 8));
  }

  // ----- the implementation ------------------------------------------------------------------------

  lemma BlocksNone(f: Compress, h: Words)
    ensures Blocks(f, h, []) == h
  {
  }

  lemma {:induction false} BlocksSnoc(f: Compress, h: Words, m: seq<Byte>, b: seq<Byte>)
    requires |m| % 64 == 0 && |b| == 64
    ensures Blocks(f, h, m + b) == f(Blocks(f, h, m), b)
    decreases |m|
  {
    if m == [] {
      assert m + b == b && b[..64] == b && b[64..] == [];
    } else {
      assert (m + b)[..64] == m[..64] && (m + b)[64..] == m[64..] + b;
      BlocksSnoc(f, f(h, m[..64]), m[64..], b);
    }
  }

  /** The context after `msg`: whole blocks folded into h, the rest pending. */
  ghost predicate Absorbed(f: Compress, h: Words, pending: seq<Byte>, msg: seq<Byte>) {
    && |pending| < 64 && |pending| <= |msg| && (|msg| - |pending|) % 64 == 0
    && h == Blocks(f, INIT, msg[..|msg| - |pending|])
    && pending == msg[|msg| - |pending|..]
  }

  lemma AbsorbPart(f: Compress, h: Words, pending: seq<Byte>, msg: seq<Byte>, d: seq<Byte>)
    requires Absorbed(f, h, pending, msg) && |pending| + |d| < 64
    ensures Absorbed(f, h, pending + d, msg + d)
  {
    var cut := |msg| - |pending|;
    assert (msg + d)[..cut] == msg[..cut] && (msg + d)[cut..] == pending + d;
  }

  lemma AbsorbBlock(f: Compress, h: Words, pending: seq<Byte>, msg: seq<Byte>, d: seq<Byte>)
    requires Absorbed(f, h, pending, msg) && |pending| + |d| == 64
    ensures Absorbed(f, f(h, pending + d), [], msg + d)
  {
    var cut := |msg| - |pending|;
    BlocksSnoc(f, INIT, msg[..cut], pending + d);
    assert msg[..cut] + (pending + d) == msg + d;
    assert (msg + d)[..|msg + d|] == msg + d;
  }

  /** Nothing pending: the whole message is folded in. */
  lemma AbsorbedAll(f: Compress, h: Words, msg: seq<Byte>)
    requires Absorbed(f, h, [], msg)
    ensures |msg| % 64 == 0 && h == Blocks(f, INIT, msg)
  {
    assert msg[..|msg|] == msg;
  }

  lemma PendingSize(f: Compress, h: Words, pending: seq<Byte>, msg: seq<Byte>)
    requires Absorbed(f, h, pending, msg)
    ensures |pending| == |msg| % 64
  {
  }

  lemma LenNext(n: nat, take: nat)
    ensures (n % TWO_64 + take) % TWO_64 == (n + take) % TWO_64
  {
    assert n + take == n / TWO_64 * TWO_64 + (n % TWO_64 + take);
  }

  lemma MoreZeros(a: seq<Byte>, k: nat)
    ensures a + Zeros(k) + [0] == a + Zeros(k + 1)
  {
  }

  lemma StopsOnTime(len: nat, k: nat)
    requires k <= PadZeros(len) && (len + 1 + k) % 64 == 56
    ensures k == PadZeros(len)
  {
    if k < PadZeros(len) {
      ModDiff(len + 1 + k, len + 1 + PadZeros(len));
    }
  }

  class Context {
    const compress: Compress
    var h: Words
    var len: int
    const buf: array<Byte>
    var buflen: nat
    /** Everything fed in so far. */
    ghost var msg: seq<Byte>

    ghost predicate Valid()
      reads this, buf
    {
      && buf.Length == 64 && buflen < 64 && len == |msg| % TWO_64
      && Absorbed(compress, h, buf[..buflen], msg)
    }

    /** sha256_init */
    constructor (f: Compress)
      ensures Valid() && compress == f && msg == [] && fresh(buf)
    {
      compress := f;
      h := INIT;
      len, buflen := 0, 0;
      buf := new Byte[64];
      msg := [];
    }

    /** One round of sha256_update: fill the buffer, and compress it when full. */
    method Feed(data: seq<Byte>) returns (take: nat)
      requires Valid() && data != []
      modifies this, buf
      ensures Valid() && 0 < take <= |data| && msg == old(msg) + data[..take]
    {
      hide Absorbed, Blocks;
      take := 64 - buflen;
      if take > |data| {
        take := |data|;
      }
      ghost var pending, d := buf[..buflen], data[..take];
      forall k | 0 <= k < take {
        buf[buflen + k] := data[k];
      }
      LenNext(|msg|, take);
      msg := msg + d;
      len := (len + take) % TWO_64;
      buflen := buflen + take;
      assert buf[..buflen] == pending + d;
      if buflen == 64 {
        AbsorbBlock(compress, h, pending, old(msg), d);
        assert buf[..] == buf[..64];
        h := compress(h, buf[..]);
        buflen := 0;
        assert buf[..0] == [];
      } else {
        AbsorbPart(compress, h, pending, old(msg), d);
      }
    }

    /** sha256_update */
    method Update(data: seq<Byte>)
      requires Valid()
      modifies this, buf
      ensures Valid() && msg == old(msg) + data
    {
      hide Absorbed;
      var i := 0;
      assert data[..0] == [];
      while i < |data|
        invariant 0 <= i <= |data| && Valid() && msg == old(msg) + data[..i]
      {
        var take := Feed(data[i..]);
        assert data[..i] + data[i..][..take] == data[..i + take];
        i := i + take;
      }
      assert data[..i] == data;
    }

    lemma BuflenIs()
      requires Valid()
      ensures buflen == |msg| % 64
    {
      PendingSize(compress, h, buf[..buflen], msg);
      assert |buf[..buflen]| == buflen;
    }

    /** The padding loop of sha256_final, up to the length field. */
    method PadTo56(ghost m: seq<Byte>)
      requires Valid() && msg == m + [0x80]
      modifies this, buf
      ensures Valid() && msg == m + [0x80] + Zeros(PadZeros(|m|))
    {
      hide Valid, PadZeros, Zeros;
      ghost var k := 0;
      assert m + [0x80] + Zeros(0) == m + [0x80];
      BuflenIs();
      while buflen != 56
        invariant Valid() && buflen == |msg| % 64 && k <= PadZeros(|m|) && msg == m + [0x80] + Zeros(k)
        decreases if buflen <= 56 then 56 - buflen else 120 - buflen
      {
        ModNext(|msg|);
        Update([0]);
        BuflenIs();
        MoreZeros(m + [0x80], k);
        k := k + 1;
      }
      StopsOnTime(|m|, k);
    }

    /** sha256_final: the digest of everything fed in. */
    method Final() returns (out: seq<Byte>)
      requires Valid()
      modifies this, buf
      ensures Valid() && out == Digest(compress, old(msg))
    {
      hide Absorbed, BigEndian, Output, Blocks, PadZeros;
      ghost var m := msg;
      var bits := len * 8 % TWO_64;
      BitsOfLength(|m|);
      Update([0x80]);
      PadTo56(m);
      Update(BigEndian(bits, 8));
      assert msg == Pad(m);
      PendingSize(compress, h, buf[..buflen], msg);
      assert buf[..buflen] == [];
      AbsorbedAll(compress, h, msg);
      out := WordsOut(h);
    }
  }

  lemma BitsOfLength(n: nat)
    ensures n % TWO_64 * 8 % TWO_64 == n * 8 % TWO_64
  {
    var q, r := n / TWO_64, n % TWO_64;
    assert n * 8 == q * 8 * TWO_64 + r * 8;
  }

  /** The output loop: eight words, most significant byte first. */
  method WordsOut(h: Words) returns (out: seq<Byte>)
    ensures out == Output(h)
  {
    hide BigEndian;
    out := [];
    for i := 0 to 8
      invariant out == Output(h)[..4 * i]
    {
      assert Output(h)[4 * i..4 * i + 4] == BigEndian(h[i], 4);
      out := out + BigEndian(h[i], 4);
    }
  }

  function Concat(chunks: seq<seq<Byte>>): seq<Byte> {
    if chunks == [] then [] else Concat(chunks[..|chunks| - 1]) + chunks[|chunks| - 1]
  }

  /** Any split of a message across update calls gives the digest of the message. */
  method HashChunks(f: Compress, chunks: seq<seq<Byte>>) returns (out: seq<Byte>)
    ensures out == Digest(f, Concat(chunks))
  {
    hide Absorbed, Digest;
    var c := new Context(f);
    var i := 0;
    while i < |chunks|
      invariant 0 <= i <= |chunks| && c.Valid() && c.compress == f && c.msg == Concat(chunks[..i])
      invariant fresh(c) && fresh(c.buf)
    {
      c.Update(chunks[i]);
      assert chunks[..i + 1][..i] == chunks[..i];
      i := i + 1;
    }
    assert chunks[..i] == chunks;
    out := c.Final();
  }
}
