/** Order and honesty: along every run the items taken so far followed by the
    ring's contents are the items accepted so far, and every finished write
    returned the length of exactly the prefix of its buffer that went in. */
module ChannelFifo {
  import opened Channel

  function Vals(a: seq<Entry>): seq<Item> {
    if a == [] then [] else [a[0].val] + Vals(a[1..])
  }

  /** The items one write call contributed, in order. */
  function OfOp(a: seq<Entry>, op: nat): seq<Item> {
    if a == [] then [] else (if a[0].op == op then [a[0].val] else []) + OfOp(a[1..], op)
  }

  lemma {:induction false} ValsConcat(a: seq<Entry>, b: seq<Entry>)
    ensures Vals(a + b) == Vals(a) + Vals(b)
  {
    if a == [] {
      assert a + b == b;
    } else {
      assert (a + b)[1..] == a[1..] + b;
      ValsConcat(a[1..], b);
    }
  }

  lemma {:induction false} OfOpConcat(a: seq<Entry>, b: seq<Entry>, op: nat)
    ensures OfOp(a + b, op) == OfOp(a, op) + OfOp(b, op)
  {
    if a == [] {
      assert a + b == b;
    } else {
      assert (a + b)[1..] == a[1..] + b;
      OfOpConcat(a[1..], b, op);
    }
  }

  lemma {:induction false} TaggedVals(op: nat, vals: seq<Item>, x: nat)
    ensures Vals(Tagged(op, vals)) == vals
    ensures OfOp(Tagged(op, vals), x) == if x == op then vals else []
  {
    if vals != [] {
      TaggedVals(op, vals[1..], x);
      assert Tagged(op, vals)[1..] == Tagged(op, vals[1..]);
      assert vals == [vals[0]] + vals[1..];
    }
  }

  // ----- the invariant ---------------------------------------------------------------------

  predicate Flat(pc: PC) {
    pc.Idle? || pc.Read? || pc.Write?
  }

  predicate Shaped(pc: PC) {
    Flat(pc) || Flat(pc.next)
  }

  /** The write call a thread is inside, if any. */
  function Core(pc: PC): PC {
    if Flat(pc) then pc else pc.next
  }

  ghost predicate Progress(s: State, t: Tid)
    requires t in s.pcs
  {
    var pc := Core(s.pcs[t]);
    && Shaped(s.pcs[t])
    && (pc.Write? ==> && pc.op < s.nextOp && pc.op !in s.outcomes && pc.done <= |pc.buf|
                      && OfOp(s.accepted, pc.op) == pc.buf[..pc.done])
  }

  /** What a return value promises about the buffer. */
  ghost predicate Honest(s: State, op: nat)
    requires op in s.outcomes
  {
    var r := s.outcomes[op];
    && op < s.nextOp
    && (if r.ret > 0 then r.ret <= |r.buf| && OfOp(s.accepted, op) == r.buf[..r.ret]
        else OfOp(s.accepted, op) == [])
    && (r.ret == |r.buf| || (0 < r.ret < |r.buf| && !r.open) || (r.ret == -EPIPE && !r.open) || (r.ret == -EAGAIN && r.open))
  }

  ghost predicate Inv(s: State, cap: nat) {
    && |s.contents| <= cap
    && Vals(s.accepted) == s.removed + s.contents
    && (forall op :: op >= s.nextOp ==> OfOp(s.accepted, op) == [])
    && (forall t :: t in s.pcs ==> Progress(s, t))
    && (forall t, x :: t in s.pcs && x in s.pcs && t != x && Core(s.pcs[t]).Write? && Core(s.pcs[x]).Write?
                       ==> Core(s.pcs[t]).op != Core(s.pcs[x]).op)
    && (forall op :: op in s.outcomes ==> Honest(s, op))
  }

  // ----- steps -------------------------------------------------------------------------------

  /** Threads move, but none starts, ends or advances a write, and nothing is
      accepted. */
  lemma QuietInv(s: State, s': State, cap: nat)
    requires Inv(s, cap) && s'.accepted == s.accepted && s'.nextOp == s.nextOp && s'.outcomes == s.outcomes
    requires |s'.contents| <= cap && s'.removed + s'.contents == s.removed + s.contents
    requires forall t :: t in s'.pcs ==> Shaped(s'.pcs[t])
    requires forall t :: t in s'.pcs && Core(s'.pcs[t]).Write? ==> t in s.pcs && Core(s.pcs[t]) == Core(s'.pcs[t])
    ensures Inv(s', cap)
  {
    forall t | t in s'.pcs ensures Progress(s', t) {
      if t in s.pcs { assert Progress(s, t); }
    }
    forall op | op in s'.outcomes ensures Honest(s', op) {
      assert Honest(s, op);
    }
  }

  /** A write call begins. */
  lemma BeginInv(s: State, cap: nat, t: Tid, buf: seq<Item>)
    requires Inv(s, cap) && Pc(s, t).Idle?
    ensures Inv(SetPc(s.(nextOp := s.nextOp + 1), t, Write(s.nextOp, buf, 0)), cap)
  {
    var s' := SetPc(s.(nextOp := s.nextOp + 1), t, Write(s.nextOp, buf, 0));
    forall op | op in s'.outcomes ensures Honest(s', op) {
      assert Honest(s, op);
    }
    forall x | x in s'.pcs ensures Progress(s', x) {
      if x != t { assert Progress(s, x); }
    }
    forall x | x in s'.pcs && x != t && Core(s'.pcs[x]).Write? ensures Core(s'.pcs[x]).op != s.nextOp {
      assert Progress(s, x);
    }
  }

  /** A write call returns what it has done so far, or an error if that is nothing. */
  lemma FinishInv(s: State, cap: nat, t: Tid, op: nat, buf: seq<Item>, done: nat, ret: int)
    requires Inv(s, cap) && Pc(s, t) == Write(op, buf, done)
    requires || (ret == done && done <= |buf| && (done == |buf| || (done > 0 && s.readers == 0)))
             || (ret == -EPIPE && done == 0 && s.readers == 0)
             || (ret == -EAGAIN && done == 0 && s.readers > 0)
    ensures Inv(Finish(s, t, op, buf, ret), cap)
  {
    var s' := Finish(s, t, op, buf, ret);
    assert Progress(s, t);
    forall x | x in s'.pcs ensures Progress(s', x) {
      if x != t { assert Progress(s, x); }
    }
    forall r | r in s'.outcomes ensures Honest(s', r) {
      if r != op { assert Honest(s, r); }
    }
  }

  lemma AppendLog(s: State, op: nat, chunk: seq<Item>)
    ensures Vals(Append(s, op, chunk).accepted) == Vals(s.accepted) + chunk
    ensures forall x: nat :: OfOp(Append(s, op, chunk).accepted, x) == OfOp(s.accepted, x) + if x == op then chunk else []
  {
    ValsConcat(s.accepted, Tagged(op, chunk));
    TaggedVals(op, chunk, op);
    forall x: nat ensures OfOp(Append(s, op, chunk).accepted, x) == OfOp(s.accepted, x) + if x == op then chunk else [] {
      OfOpConcat(s.accepted, Tagged(op, chunk), x);
      TaggedVals(op, chunk, x);
    }
  }

  /** A chunk of the buffer goes in. */
  lemma AppendInv(s: State, cap: nat, t: Tid, op: nat, buf: seq<Item>, done: nat, n: nat)
    requires Inv(s, cap) && Pc(s, t) == Write(op, buf, done) && done + n <= |buf| && |s.contents| + n <= cap
    ensures Inv(SetPc(Append(s, op, buf[done..done + n]), t, Wake(Rq, Write(op, buf, done + n))), cap)
  {
    var chunk := buf[done..done + n];
    AppendLog(s, op, chunk);
    AppendState(s, SetPc(Append(s, op, chunk), t, Wake(Rq, Write(op, buf, done + n))), cap, t, op, buf, done, n);
  }

  lemma AppendState(s: State, s': State, cap: nat, t: Tid, op: nat, buf: seq<Item>, done: nat, n: nat)
    requires Inv(s, cap) && Pc(s, t) == Write(op, buf, done) && done + n <= |buf| && |s.contents| + n <= cap
    requires s'.contents == s.contents + buf[done..done + n] && s'.removed == s.removed
    requires s'.pcs == s.pcs[t := Wake(Rq, Write(op, buf, done + n))]
    requires s'.nextOp == s.nextOp && s'.outcomes == s.outcomes
    requires Vals(s'.accepted) == Vals(s.accepted) + buf[done..done + n]
    requires forall x: nat :: OfOp(s'.accepted, x) == OfOp(s.accepted, x) + if x == op then buf[done..done + n] else []
    ensures Inv(s', cap)
  {
    hide OfOp, Vals;
    var chunk := buf[done..done + n];
    assert s.removed + s.contents + chunk == s.removed + (s.contents + chunk);
    assert Progress(s, t);
    assert buf[..done] + chunk == buf[..done + n];
    forall x | x in s'.pcs ensures Progress(s', x) {
      if x != t { assert Progress(s, x); }
    }
    forall r | r in s'.outcomes ensures Honest(s', r) {
      assert Honest(s, r);
    }
  }

  lemma ReadInv(s: State, cap: nat, t: Tid, n: nat)
    requires Inv(s, cap) && Pc(s, t) == Read(n)
    ensures Inv(ReadPass(s, t, n), cap)
  {
    forall x | x in s.pcs ensures Shaped(s.pcs[x]) { assert Progress(s, x); }
    var take := if |s.contents| < n then |s.contents| else n;
    assert s.removed + s.contents[..take] + s.contents[take..] == s.removed + s.contents;
    QuietInv(s, ReadPass(s, t, n), cap);
  }

  lemma WriteInv(s: State, cap: nat, t: Tid, op: nat, buf: seq<Item>, done: nat)
    requires Inv(s, cap) && Pc(s, t) == Write(op, buf, done) && done <= |buf|
    ensures Inv(WritePass(s, cap, t, op, buf, done), cap)
  {
    if done == |buf| {
      FinishInv(s, cap, t, op, buf, done, done);
    } else if s.readers == 0 {
      FinishInv(s, cap, t, op, buf, done, if done > 0 then done else -EPIPE);
    } else if |s.contents| >= cap {
      forall x | x in s.pcs ensures Shaped(s.pcs[x]) { assert Progress(s, x); }
      QuietInv(s, WritePass(s, cap, t, op, buf, done), cap);
    } else {
      var space := cap - |s.contents|;
      AppendInv(s, cap, t, op, buf, done, if |buf| - done < space then |buf| - done else space);
    }
  }

  lemma WakeInv(s: State, cap: nat, policy: Policy, t: Tid, q: Queue, next: PC)
    requires Inv(s, cap) && Pc(s, t) == Wake(q, next)
    ensures Inv(SetPc(WakeUp(s, policy, q), t, next), cap)
  {
    var s' := SetPc(WakeUp(s, policy, q), t, next);
    forall x | x in s.pcs ensures Shaped(s.pcs[x]) { assert Progress(s, x); }
    forall x | x in s'.pcs ensures x in s.pcs && Shaped(s'.pcs[x]) && Core(s'.pcs[x]) == Core(s.pcs[x]) {}
    QuietInv(s, s', cap);
  }

  lemma AdvanceInv(s: State, cap: nat, policy: Policy, t: Tid)
    requires Inv(s, cap) && Enabled(s, Step(t))
    ensures Inv(Advance(s, cap, policy, t), cap)
  {
    forall x | x in s.pcs ensures Shaped(s.pcs[x]) { assert Progress(s, x); }
    match s.pcs[t]
    case Read(n) => ReadInv(s, cap, t, n);
    case Write(op, buf, done) => WriteInv(s, cap, t, op, buf, done);
    case Block(q, next) => QuietInv(s, Advance(s, cap, policy, t), cap);
    case Commit(q, next) => QuietInv(s, Advance(s, cap, policy, t), cap);
    case Wake(q, next) => WakeInv(s, cap, policy, t, q, next);
    case _ =>
  }

  /** A non-blocking send is a write call of one item that ends at once. */
  lemma TrySendInv(s: State, cap: nat, policy: Policy, t: Tid, m: Item)
    requires Inv(s, cap) && Enabled(s, TrySend(t, m)) && |s.contents| <= cap
    ensures Inv(Apply(s, cap, policy, TrySend(t, m)), cap)
  {
    hide Inv, Tagged;
    BeginInv(s, cap, t, [m]);
    var op := s.nextOp;
    var s0 := s.(nextOp := op + 1);
    var s1 := SetPc(s0, t, Write(op, [m], 0));
    if s.readers == 0 {
      FinishInv(s1, cap, t, op, [m], 0, -EPIPE);
      assert Finish(s1, t, op, [m], -EPIPE) == Finish(s0, t, op, [m], -EPIPE);
    } else if |s.contents| >= cap {
      FinishInv(s1, cap, t, op, [m], 0, -EAGAIN);
      assert Finish(s1, t, op, [m], -EAGAIN) == Finish(s0, t, op, [m], -EAGAIN);
    } else {
      AppendInv(s1, cap, t, op, [m], 0, 1);
      assert [m][0..1] == [m];
      var next: PC := Wake(Rq, Write(op, [m], 1));
      assert SetPc(Append(s1, op, [m]), t, next) == SetPc(Append(s0, op, [m]), t, next);
    }
  }

  lemma ApplyInv(s: State, cap: nat, policy: Policy, c: Cmd)
    requires Inv(s, cap) && Enabled(s, c)
    ensures Inv(Apply(s, cap, policy, c), cap)
  {
    forall x | x in s.pcs ensures Shaped(s.pcs[x]) { assert Progress(s, x); }
    match c
    case BeginRead(t, n) => QuietInv(s, Apply(s, cap, policy, c), cap);
    case BeginWrite(t, buf) => BeginInv(s, cap, t, buf);
    case TrySend(t, m) => TrySendInv(s, cap, policy, t, m);
    case Step(t) => AdvanceInv(s, cap, policy, t);
    case _ => QuietInv(s, Apply(s, cap, policy, c), cap);
  }

  lemma {:induction false} RunInv(s: State, cap: nat, policy: Policy, cmds: seq<Cmd>)
    requires Inv(s, cap) && Runs(s, cap, policy, cmds)
    ensures Inv(After(s, cap, policy, cmds), cap)
    decreases |cmds|
  {
    hide Inv, Enabled, Apply;
    if cmds != [] {
      ApplyInv(s, cap, policy, cmds[0]);
      RunInv(Apply(s, cap, policy, cmds[0]), cap, policy, cmds[1..]);
    }
  }

  /** First in, first out, over every interleaving; and every finished write is
      honest: a positive return is the length of the prefix of its buffer that
      was accepted, any other return means nothing was.  It falls short of the
      whole buffer only where no read end was open, or, without blocking, where
      the channel was full. */
  lemma FirstInFirstOut(cap: nat, policy: Policy, cmds: seq<Cmd>)
    requires Runs(Fresh(), cap, policy, cmds)
    ensures var s := After(Fresh(), cap, policy, cmds);
            && Vals(s.accepted) == s.removed + s.contents && |s.contents| <= cap
            && (forall op :: op in s.outcomes ==>
                  var r := s.outcomes[op];
                  && (if r.ret > 0 then r.ret <= |r.buf| && OfOp(s.accepted, op) == r.buf[..r.ret]
                      else OfOp(s.accepted, op) == [])
                  && (r.ret == |r.buf| || (0 < r.ret < |r.buf| && !r.open) || (r.ret == -EPIPE && !r.open)
                      || (r.ret == -EAGAIN && r.open)))
  {
    RunInv(Fresh(), cap, policy, cmds);
    var s := After(Fresh(), cap, policy, cmds);
    forall op | op in s.outcomes
      ensures var r := s.outcomes[op];
              && (if r.ret > 0 then r.ret <= |r.buf| && OfOp(s.accepted, op) == r.buf[..r.ret]
                  else OfOp(s.accepted, op) == [])
              && (r.ret == |r.buf| || (0 < r.ret < |r.buf| && !r.open) || (r.ret == -EPIPE && !r.open)
                  || (r.ret == -EAGAIN && r.open))
    {
      assert Honest(s, op);
    }
  }
}
