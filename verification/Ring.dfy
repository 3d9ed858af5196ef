/** The ring buffers of struct kpipe and struct kport, updated in place. */
module Ring {

  /** An index that ran at most once past the end of the ring. */
  function Wrap(i: nat, cap: nat): (r: nat)
    requires i < 2 * cap
    ensures r < cap
  {
    if i < cap then i else i - cap
  }

  /** Stepping modulo the capacity is stepping the wrapped index. */
  lemma WrapNext(i: nat, cap: nat)
    requires i + 1 < 2 * cap
    ensures (Wrap(i, cap) + 1) % cap == Wrap(i + 1, cap)
  {
  }

  /** The n items that start at index `head` of the ring b, oldest first. */
  ghost function View<T>(b: seq<T>, head: nat, n: nat): (r: seq<T>)
    requires head < |b| && n <= |b|
    ensures |r| == n && forall i :: 0 <= i < n ==> r[i] == b[Wrap(head + i, |b|)]
  {
    seq(n, i requires 0 <= i < n => b[Wrap(head + i, |b|)])
  }

  lemma ViewPut<T>(b: seq<T>, head: nat, n: nat, x: T)
    requires head < |b| && n < |b|
    ensures View(b[Wrap(head + n, |b|) := x], head, n + 1) == View(b, head, n) + [x]
  {
  }

  lemma ViewPop<T>(b: seq<T>, head: nat, n: nat)
    requires head < |b| && 0 < n <= |b|
    ensures View(b, head, n) == [b[head]] + View(b, Wrap(head + 1, |b|), n - 1)
  {
    var r, rest := View(b, head, n), View(b, Wrap(head + 1, |b|), n - 1);
    forall i | 0 <= i < n - 1 ensures r[i + 1] == rest[i] {
      assert Wrap(head + (i + 1), |b|) == Wrap(Wrap(head + 1, |b|) + i, |b|);
    }
  }

  class RingBuffer<T(0)> {
    const buf: array<T>
    var head: nat
    var tail: nat
    var count: nat

    ghost predicate Valid()
      reads this
    {
      && head < buf.Length && tail < buf.Length && count <= buf.Length
      && tail == Wrap(head + count, buf.Length)
    }

    /** The queued items, oldest first. */
    ghost function Contents(): seq<T>
      requires Valid()
      reads this, buf
    {
      View(buf[..], head, count)
    }

    constructor (capacity: nat)
      requires 0 < capacity
      ensures Valid() && buf.Length == capacity && Contents() == [] && fresh(buf)
    {
      buf := new T[capacity];
      head, tail, count := 0, 0, 0;
    }

    /** The write loop of a pipe: n items of `src` from index `from` on. */
    method Append(src: seq<T>, from: nat, n: nat)
      requires Valid() && from + n <= |src| && count + n <= buf.Length
      modifies this, buf
      ensures Valid() && Contents() == old(Contents()) + src[from..from + n]
    {
      hide View;
      var i := 0;
      while i < n
        invariant 0 <= i <= n && count == old(count) && head == old(head)
        invariant tail == Wrap(head + (count + i), buf.Length)
        invariant View(buf[..], head, count + i) == old(Contents()) + src[from..from + i]
      {
        ViewPut(buf[..], head, count + i, src[from + i]);
        ghost var b := buf[..];
        buf[tail] := src[from + i];
        assert buf[..] == b[tail := src[from + i]];
        WrapNext(head + (count + i), buf.Length);
        tail := (tail + 1) % buf.Length;
        assert src[from..from + (i + 1)] == src[from..from + i] + [src[from + i]];
        i := i + 1;
      }
      count := count + n;
    }

    /** The read loop of a pipe: the n oldest items leave. */
    method Take(n: nat) returns (out: seq<T>)
      requires Valid() && n <= count
      modifies this
      ensures Valid() && out == old(Contents())[..n] && Contents() == old(Contents())[n..]
    {
      hide View;
      out := [];
      var i := 0;
      while i < n
        invariant 0 <= i <= n && |out| == i && count == old(count) && tail == old(tail) && head < buf.Length
        invariant head == Wrap(old(head) + i, buf.Length)
        invariant out + View(buf[..], head, count - i) == old(Contents())
      {
        ViewPop(buf[..], head, count - i);
        out := out + [buf[head]];
        WrapNext(old(head) + i, buf.Length);
        head := (head + 1) % buf.Length;
        i := i + 1;
      }
      count := count - n;
      assert out == old(Contents())[..n];
    }
  }
}
