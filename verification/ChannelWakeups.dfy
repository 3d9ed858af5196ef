/** Lost wake-ups.  With a broadcast wake_up none is ever lost.  With the
    wake_up of the code, which wakes one sleeper, none is lost if and only if
    at most one thread reads and at most one thread writes. */
module ChannelWakeups {
  import opened Channel

  // ----- the property --------------------------------------------------------------------

  predicate Announces(pc: PC, q: Queue) {
    pc.Wake? && pc.q == q
  }

  predicate PendingWake(s: State, q: Queue) {
    exists t :: t in s.pcs && Announces(s.pcs[t], q)
  }

  /** Nobody sleeps on q past the end of its wait without a wake_up on q to come. */
  predicate NoLostWakeup(s: State, cap: nat, q: Queue) {
    Sleepers(s, q) != [] && !StillBlock(s, cap, q) ==> PendingWake(s, q)
  }

  // ----- the invariant ---------------------------------------------------------------------

  /** The threads allowed to begin reads and writes. */
  datatype Users = Users(readers: iset<Tid>, writers: iset<Tid>)

  /** A loop position: at the top of the read or of the write loop. */
  predicate LoopOk(u: Users, t: Tid, q: Queue, next: PC) {
    if q == Rq then next.Read? && t in u.readers
    else next.Write? && next.done <= |next.buf| && t in u.writers
  }

  predicate PcOk(u: Users, t: Tid, pc: PC) {
    match pc
    case Idle => true
    case Read(_) => t in u.readers
    case Write(_, buf, done) => done <= |buf| && (done < |buf| ==> t in u.writers)
    case Block(q, next) => LoopOk(u, t, q, next)
    case Commit(q, next) => LoopOk(u, t, q, next)
    case Sleep(q, next) => LoopOk(u, t, q, next)
    case Wake(_, next) => next.Idle? || (next.Write? && PcOk(u, t, next))
  }

  predicate Waiting(s: State, q: Queue) {
    Sleepers(s, q) != [] || !LockFree(s, q)
  }

  predicate NoDup(ts: seq<Tid>) {
    forall i, j :: 0 <= i < j < |ts| ==> ts[i] != ts[j]
  }

  /** The queue lists exactly the threads that sleep on it, once each. */
  ghost predicate QueueOk(s: State, q: Queue) {
    && NoDup(Sleepers(s, q))
    && (forall t :: t in Sleepers(s, q) <==> t in s.pcs && s.pcs[t].Sleep? && s.pcs[t].q == q)
  }

  ghost predicate Inv(s: State, cap: nat, u: Users) {
    && |s.contents| <= cap
    && (forall t :: t in s.pcs ==> PcOk(u, t, s.pcs[t]))
    && (forall q :: QueueOk(s, q))
    && (forall q :: Waiting(s, q) && !StillBlock(s, cap, q) ==> PendingWake(s, q))
  }

  /** Either wake_up empties the queue, or no queue ever holds two. */
  ghost predicate Served(policy: Policy, u: Users) {
    policy == WakeAll || (AtMostOne(u.readers) && AtMostOne(u.writers))
  }

  function UsersOf(u: Users, q: Queue): iset<Tid> {
    if q == Rq then u.readers else u.writers
  }

  ghost predicate AtMostOne(ts: iset<Tid>) {
    forall a, b :: a in ts && b in ts ==> a == b
  }

  predicate Allowed(u: Users, c: Cmd) {
    (c.BeginRead? ==> c.t in u.readers) && (c.BeginWrite? ==> c.t in u.writers)
  }

  // ----- steps ---------------------------------------------------------------------------------

  /** t moves to pc' without entering or leaving a queue, while the channel may
      change so that a wait ends only if t is about to wake that queue. */
  lemma MoveInv(s: State, s': State, cap: nat, u: Users, t: Tid, pc': PC)
    requires Inv(s, cap, u) && !Pc(s, t).Sleep? && !pc'.Sleep? && PcOk(u, t, pc')
    requires s'.pcs == s.pcs[t := pc'] && s'.rq == s.rq && s'.wq == s.wq && |s'.contents| <= cap
    requires forall q :: !Announces(pc', q) ==>
               && !Announces(Pc(s, t), q)
               && (StillBlock(s, cap, q) ==> StillBlock(s', cap, q))
               && (pc'.Commit? && pc'.q == q ==> StillBlock(s', cap, q))
    ensures Inv(s', cap, u)
  {
    forall q ensures QueueOk(s', q) {
      assert QueueOk(s, q);
    }
    forall q | Waiting(s', q) && !StillBlock(s', cap, q) ensures PendingWake(s', q) {
      if Announces(pc', q) {
        assert s'.pcs[t] == pc';
      } else {
        assert !StillBlock(s, cap, q);
        assert Waiting(s, q) by {
          if Sleepers(s, q) == [] {
            var x :| x in s'.pcs && s'.pcs[x].Commit? && s'.pcs[x].q == q;
            assert x != t;
          }
        }
        var w :| w in s.pcs && Announces(s.pcs[w], q);
        assert w != t && s'.pcs[w] == s.pcs[w];
      }
    }
  }

  lemma EnqueueInv(s: State, cap: nat, u: Users, t: Tid, q: Queue, next: PC)
    requires Inv(s, cap, u) && Pc(s, t) == Commit(q, next)
    ensures Inv(SetPc(SetSleepers(s, q, Sleepers(s, q) + [t]), t, Sleep(q, next)), cap, u)
  {
    var s' := SetPc(SetSleepers(s, q, Sleepers(s, q) + [t]), t, Sleep(q, next));
    assert PcOk(u, t, s.pcs[t]);
    forall r ensures QueueOk(s', r) {
      assert QueueOk(s, r);
    }
    forall r | Waiting(s', r) && !StillBlock(s', cap, r) ensures PendingWake(s', r) {
      assert Waiting(s, r) by {
        if r == q {
          assert s.pcs[t].Commit?;
        } else if Sleepers(s, r) == [] {
          var x :| x in s'.pcs && s'.pcs[x].Commit? && s'.pcs[x].q == r;
          assert x in s.pcs && s.pcs[x] == s'.pcs[x];
        }
      }
      var w :| w in s.pcs && Announces(s.pcs[w], r);
      assert w != t && s'.pcs[w] == s.pcs[w];
    }
  }

  /** Under Served, wake_up leaves its queue empty. */
  lemma WakeEmpties(s: State, cap: nat, policy: Policy, u: Users, q: Queue)
    requires Inv(s, cap, u) && Served(policy, u)
    ensures WakeUp(s, policy, q) == Resume(SetSleepers(s, q, []), Sleepers(s, q))
  {
    var ts := Sleepers(s, q);
    assert QueueOk(s, q);
    forall i | 0 <= i < |ts| ensures ts[i] in UsersOf(u, q) {
      assert ts[i] in ts;
      assert PcOk(u, ts[i], s.pcs[ts[i]]);
    }
    assert |ts| >= 2 ==> ts[0] != ts[1] && ts[0] in UsersOf(u, q) && ts[1] in UsersOf(u, q);
    assert policy == WakeFirst ==> |ts| <= 1;
    if ts == [] {
      assert Resume(s, ts).pcs == s.pcs;
    } else if policy == WakeFirst {
      assert ts[..1] == ts && ts[1..] == [];
    }
  }

  lemma WakeInv(s: State, cap: nat, policy: Policy, u: Users, t: Tid, q: Queue, next: PC)
    requires Inv(s, cap, u) && Served(policy, u) && Pc(s, t) == Wake(q, next) && LockFree(s, q)
    ensures Inv(SetPc(WakeUp(s, policy, q), t, next), cap, u)
  {
    WakeEmpties(s, cap, policy, u, q);
    var s' := SetPc(WakeUp(s, policy, q), t, next);
    var ts := Sleepers(s, q);
    assert QueueOk(s, q);
    assert PcOk(u, t, s.pcs[t]);
    forall x | x in s'.pcs ensures PcOk(u, x, s'.pcs[x]) && s'.pcs[x] == WokenPc(s, q, t, next, x) {
      assert x in s.pcs ==> PcOk(u, x, s.pcs[x]);
    }
    forall r ensures QueueOk(s', r) {
      assert QueueOk(s, r);
    }
    forall r | Waiting(s', r) && !StillBlock(s', cap, r) ensures PendingWake(s', r) {
      WakeOthers(s, s', cap, u, q, t, next, r);
    }
  }

  function WokenPc(s: State, q: Queue, t: Tid, next: PC, x: Tid): PC
    requires x == t || x in s.pcs
  {
    if x == t then next
    else if s.pcs[x].Sleep? && s.pcs[x].q == q then s.pcs[x].next
    else s.pcs[x]
  }

  lemma WakeOthers(s: State, s': State, cap: nat, u: Users, q: Queue, t: Tid, next: PC, r: Queue)
    requires Inv(s, cap, u) && Pc(s, t) == Wake(q, next) && LockFree(s, q)
    requires s'.pcs.Keys == s.pcs.Keys && forall x :: x in s.pcs ==> s'.pcs[x] == WokenPc(s, q, t, next, x)
    requires Sleepers(s', q) == [] && (forall p :: p != q ==> Sleepers(s', p) == Sleepers(s, p))
    requires s'.contents == s.contents && s'.readers == s.readers && s'.writers == s.writers
    requires Waiting(s', r) && !StillBlock(s', cap, r)
    ensures PendingWake(s', r)
  {
    assert PcOk(u, t, s.pcs[t]);
    if Sleepers(s', r) == [] {
      var x :| x in s'.pcs && s'.pcs[x].Commit? && s'.pcs[x].q == r;
      assert PcOk(u, x, s.pcs[x]);
      assert s.pcs[x] == s'.pcs[x];
    }
    assert r != q && Waiting(s, r);
    var w :| w in s.pcs && Announces(s.pcs[w], r);
    assert s'.pcs[w] == s.pcs[w];
  }

  // ----- every command ----------------------------------------------------------------------------

  lemma AdvanceInv(s: State, cap: nat, policy: Policy, u: Users, t: Tid)
    requires Inv(s, cap, u) && Served(policy, u) && cap > 0 && Enabled(s, Step(t))
    ensures Inv(Advance(s, cap, policy, t), cap, u)
  {
    var s' := Advance(s, cap, policy, t);
    assert PcOk(u, t, s.pcs[t]);
    match s.pcs[t]
    case Read(n) => MoveInv(s, s', cap, u, t, s'.pcs[t]);
    case Write(op, buf, done) => MoveInv(s, s', cap, u, t, s'.pcs[t]);
    case Block(q, next) => MoveInv(s, s', cap, u, t, s'.pcs[t]);
    case Commit(q, next) => EnqueueInv(s, cap, u, t, q, next);
    case Wake(q, next) => WakeInv(s, cap, policy, u, t, q, next);
    case _ =>
  }

  lemma ApplyInv(s: State, cap: nat, policy: Policy, u: Users, c: Cmd)
    requires Inv(s, cap, u) && Served(policy, u) && cap > 0 && Enabled(s, c) && Allowed(u, c)
    ensures Inv(Apply(s, cap, policy, c), cap, u)
  {
    var s' := Apply(s, cap, policy, c);
    match c
    case Step(t) => AdvanceInv(s, cap, policy, u, t);
    case OpenReader(t) => SameInv(s, s', cap, u);
    case OpenWriter(t) => SameInv(s, s', cap, u);
    case CloseReader(t) => CloseInv(s, s', cap, u, t);
    case CloseWriter(t) => CloseInv(s, s', cap, u, t);
    case _ => MoveInv(s, s', cap, u, c.t, s'.pcs[c.t]);
  }

  /** No thread moves and no wait ends. */
  lemma SameInv(s: State, s': State, cap: nat, u: Users)
    requires Inv(s, cap, u) && s'.pcs == s.pcs && s'.rq == s.rq && s'.wq == s.wq && |s'.contents| <= cap
    requires forall q :: StillBlock(s, cap, q) ==> StillBlock(s', cap, q)
    ensures Inv(s', cap, u)
  {
    forall q ensures QueueOk(s', q) {
      assert QueueOk(s, q);
    }
    forall q | Waiting(s', q) && !StillBlock(s', cap, q) ensures PendingWake(s', q) {
      assert Waiting(s, q);
    }
  }

  lemma CloseInv(s: State, s': State, cap: nat, u: Users, t: Tid)
    requires Inv(s, cap, u) && cap > 0
    requires (Enabled(s, CloseReader(t)) && s' == Apply(s, cap, WakeAll, CloseReader(t)))
          || (Enabled(s, CloseWriter(t)) && s' == Apply(s, cap, WakeAll, CloseWriter(t)))
    ensures Inv(s', cap, u)
  {
    if t in s'.pcs && s'.pcs[t].Wake? {
      MoveInv(s, s', cap, u, t, s'.pcs[t]);
    } else {
      SameInv(s, s', cap, u);
    }
  }

  lemma {:induction false} RunInv(s: State, cap: nat, policy: Policy, u: Users, cmds: seq<Cmd>)
    requires Inv(s, cap, u) && Served(policy, u) && cap > 0
    requires Runs(s, cap, policy, cmds) && forall c :: c in cmds ==> Allowed(u, c)
    ensures Inv(After(s, cap, policy, cmds), cap, u)
    decreases |cmds|
  {
    hide Inv, Enabled, Apply;
    if cmds != [] {
      ApplyInv(s, cap, policy, u, cmds[0]);
      RunInv(Apply(s, cap, policy, cmds[0]), cap, policy, u, cmds[1..]);
    }
  }

  /** In every run of any threads with a broadcast wake_up, and in every run of
      at most one reader and one writer with the wake_up of the code, no wake-up
      is ever lost. */
  lemma NoWakeupLost(cap: nat, policy: Policy, u: Users, cmds: seq<Cmd>, q: Queue)
    requires cap > 0 && Served(policy, u)
    requires Runs(Fresh(), cap, policy, cmds) && forall c :: c in cmds ==> Allowed(u, c)
    ensures var s := After(Fresh(), cap, policy, cmds);
            && NoLostWakeup(s, cap, q)
            && (s.rq != [] && (|s.contents| > 0 || s.writers == 0) ==> exists t :: t in s.pcs && s.pcs[t].Wake? && s.pcs[t].q == Rq)
            && (s.wq != [] && (|s.contents| < cap || s.readers == 0) ==> exists t :: t in s.pcs && s.pcs[t].Wake? && s.pcs[t].q == Wq)
  {
    forall r ensures QueueOk(Fresh(), r) {}
    RunInv(Fresh(), cap, policy, u, cmds);
    var s := After(Fresh(), cap, policy, cmds);
    Awaited(s, cap, Rq);
    Awaited(s, cap, Wq);
  }

  lemma Awaited(s: State, cap: nat, q: Queue)
    requires |s.contents| <= cap && (forall r :: Waiting(s, r) && !StillBlock(s, cap, r) ==> PendingWake(s, r))
    ensures q == Rq && s.rq != [] && (|s.contents| > 0 || s.writers == 0) ==> exists t :: t in s.pcs && s.pcs[t].Wake? && s.pcs[t].q == Rq
    ensures q == Wq && s.wq != [] && (|s.contents| < cap || s.readers == 0) ==> exists t :: t in s.pcs && s.pcs[t].Wake? && s.pcs[t].q == Wq
  {
    if Sleepers(s, q) != [] && !StillBlock(s, cap, q) {
      assert PendingWake(s, q);
      var t :| t in s.pcs && Announces(s.pcs[t], q);
    }
  }
}
