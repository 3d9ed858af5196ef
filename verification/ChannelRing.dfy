/** The copy loops of the ring buffer perform the passes of the channel machine. */
module ChannelRing {
  import opened Channel
  import opened Ring

  /** The critical section of a read: the oldest items, at most n, leave the ring
      as they leave the channel. */
  method ReadFrom(ring: RingBuffer<Item>, n: nat, ghost s: State, t: Tid) returns (out: seq<Item>)
    requires ring.Valid() && ring.Contents() == s.contents
    modifies ring
    ensures ring.Valid()
    ensures old(ring.Contents()) == out + ring.Contents()
    ensures |out| == if n < |old(ring.Contents())| then n else |old(ring.Contents())|
    ensures var s' := ReadPass(s, t, n); ring.Contents() == s'.contents && s'.removed == s.removed + out
  {
    out := [];
    if ring.count > 0 {
      var take := if ring.count < n then ring.count else n;
      out := ring.Take(take);
    }
  }

  /** The critical section of a write: as much as fits of what is left, if a read
      end is open, joins the ring as it joins the channel. */
  method WriteInto(ring: RingBuffer<Item>, readers: nat, buf: seq<Item>, done: nat, ghost s: State, t: Tid, ghost op: nat)
      returns (done': nat)
    requires ring.Valid() && ring.Contents() == s.contents && readers == s.readers && done <= |buf|
    modifies ring, ring.buf
    ensures ring.Valid() && done <= done' <= |buf|
    ensures ring.Contents() == old(ring.Contents()) + buf[done..done']
    ensures readers == 0 ==> done' == done
    ensures readers > 0 ==> done' == |buf| || |ring.Contents()| == ring.buf.Length
    ensures var s' := WritePass(s, ring.buf.Length, t, op, buf, done);
            ring.Contents() == s'.contents && s'.accepted == s.accepted + Tagged(op, buf[done..done'])
  {
    done' := done;
    assert buf[done..done] == [] && s.accepted + [] == s.accepted;
    var space := ring.buf.Length - ring.count;
    if done < |buf| && readers > 0 && space > 0 {
      var chunk := if |buf| - done < space then |buf| - done else space;
      ring.Append(buf, done, chunk);
      done' := done + chunk;
    }
  }
}
