/** The other half: with the wake_up of the code, two readers or two writers are
    enough for one of them to be left asleep with its wait over. */
module ChannelLimits {
  import opened Channel
  import opened ChannelWakeups

  lemma {:induction false} RunsConcat(s: State, cap: nat, p: Policy, c1: seq<Cmd>, c2: seq<Cmd>)
    requires Runs(s, cap, p, c1) && Runs(After(s, cap, p, c1), cap, p, c2)
    ensures Runs(s, cap, p, c1 + c2) && After(s, cap, p, c1 + c2) == After(After(s, cap, p, c1), cap, p, c2)
    decreases |c1|
  {
    hide Enabled, Apply;
    if c1 == [] {
      assert c1 + c2 == c2;
    } else {
      RunsConcat(Apply(s, cap, p, c1[0]), cap, p, c1[1..], c2);
      assert (c1 + c2)[1..] == c1[1..] + c2;
    }
  }

  lemma Extend(s: State, cap: nat, p: Policy, cmds: seq<Cmd>, c: Cmd)
    requires Runs(s, cap, p, cmds) && Enabled(After(s, cap, p, cmds), c)
    ensures Runs(s, cap, p, cmds + [c])
    ensures After(s, cap, p, cmds + [c]) == Apply(After(s, cap, p, cmds), cap, p, c)
  {
    hide Enabled, Apply;
    var s1 := After(s, cap, p, cmds);
    assert [c][1..] == [] && Runs(Apply(s1, cap, p, c), cap, p, []);
    assert Runs(s1, cap, p, [c]) && After(s1, cap, p, [c]) == After(Apply(s1, cap, p, c), cap, p, []);
    RunsConcat(s, cap, p, cmds, [c]);
  }

  /** A reachable state, with the commands that lead to it. */
  ghost predicate Reached(s: State, cap: nat, u: Users, cmds: seq<Cmd>) {
    && Runs(Fresh(), cap, WakeFirst, cmds) && After(Fresh(), cap, WakeFirst, cmds) == s
    && forall c :: c in cmds ==> Allowed(u, c)
  }

  lemma Go(s: State, cap: nat, u: Users, cmds: seq<Cmd>, c: Cmd) returns (s': State, cmds': seq<Cmd>)
    requires Reached(s, cap, u, cmds) && Enabled(s, c) && Allowed(u, c)
    ensures s' == Apply(s, cap, WakeFirst, c) && Reached(s', cap, u, cmds')
  {
    Extend(Fresh(), cap, WakeFirst, cmds, c);
    s', cmds' := Apply(s, cap, WakeFirst, c), cmds + [c];
  }

  /** From the top of its loop, t finds it must wait and goes to sleep on q. */
  lemma FallAsleep(s: State, cap: nat, u: Users, cmds: seq<Cmd>, t: Tid, q: Queue, next: PC) returns (s': State, cmds': seq<Cmd>)
    requires Reached(s, cap, u, cmds) && Pc(s, t) == next && StillBlock(s, cap, q)
    requires if q == Rq then next.Read? else next.Write? && next.done < |next.buf|
    requires forall x :: x in s.pcs ==> !s.pcs[x].Commit?
    ensures Reached(s', cap, u, cmds')
    ensures s'.pcs == s.pcs[t := Sleep(q, next)] && Sleepers(s', q) == Sleepers(s, q) + [t]
    ensures forall r :: r != q ==> Sleepers(s', r) == Sleepers(s, r)
    ensures s'.contents == s.contents && s'.readers == s.readers && s'.writers == s.writers && s'.nextOp == s.nextOp
  {
    hide Reached;
    var s1, c1 := Go(s, cap, u, cmds, Step(t));
    assert s1 == SetPc(s, t, Block(q, next));
    var s2, c2 := Go(s1, cap, u, c1, Step(t));
    assert s2.pcs == s.pcs[t := Commit(q, next)];
    s', cmds' := Go(s2, cap, u, c2, Step(t));
    assert s'.pcs == s.pcs[t := Sleep(q, next)];
  }

  // ----- asleep for good ------------------------------------------------------------------------

  function Other(q: Queue): Queue {
    if q == Rq then Wq else Rq
  }

  /** Positions of threads that never wake q. */
  predicate Side(q: Queue, pc: PC) {
    match pc
    case Idle => true
    case Read(_) => q == Rq
    case Write(_, _, _) => q == Wq
    case Block(r, next) => r == q && Side(q, next)
    case Commit(r, next) => r == q && Side(q, next)
    case Sleep(r, next) => r == q && Side(q, next)
    case Wake(r, next) => r != q && next.Idle?
  }

  /** The ends on the other side are all closed, and b sleeps. */
  ghost predicate Stuck(s: State, q: Queue, b: Tid) {
    && (if q == Rq then s.writers == 0 && s.contents == [] else s.readers == 0)
    && Pc(s, b).Sleep? && b !in Sleepers(s, Other(q))
    && forall x :: x in s.pcs ==> Side(q, s.pcs[x])
  }

  /** A new end on the side that ended the wait. */
  predicate Reopens(c: Cmd, q: Queue) {
    if q == Rq then c.OpenWriter? else c.OpenReader?
  }

  ghost predicate AsleepForGood(s: State, cap: nat, q: Queue, b: Tid) {
    forall more :: Runs(s, cap, WakeFirst, more) && (forall c :: c in more ==> !Reopens(c, q)) ==>
      Pc(After(s, cap, WakeFirst, more), b).Sleep?
  }

  lemma StuckStep(s: State, cap: nat, p: Policy, q: Queue, b: Tid, c: Cmd)
    requires Stuck(s, q, b) && Enabled(s, c) && !Reopens(c, q)
    ensures Stuck(Apply(s, cap, p, c), q, b)
  {
    if c.Step? {
      assert Side(q, s.pcs[c.t]);
    }
  }

  lemma {:induction false} StuckRun(s: State, cap: nat, p: Policy, q: Queue, b: Tid, more: seq<Cmd>)
    requires Stuck(s, q, b) && Runs(s, cap, p, more) && forall c :: c in more ==> !Reopens(c, q)
    ensures Stuck(After(s, cap, p, more), q, b)
    decreases |more|
  {
    hide Stuck, Enabled, Apply, Reopens;
    if more != [] {
      StuckStep(s, cap, p, q, b, more[0]);
      StuckRun(Apply(s, cap, p, more[0]), cap, p, q, b, more[1..]);
    }
  }

  lemma StuckForGood(s: State, cap: nat, q: Queue, b: Tid)
    requires Stuck(s, q, b)
    ensures AsleepForGood(s, cap, q, b)
  {
    forall more | Runs(s, cap, WakeFirst, more) && (forall c :: c in more ==> !Reopens(c, q))
      ensures Pc(After(s, cap, WakeFirst, more), b).Sleep?
    {
      StuckRun(s, cap, WakeFirst, q, b, more);
    }
  }

  /** Two sleepers on q, and the close that ends their wait wakes one of them. */
  lemma OneIsLeft(s: State, cap: nat, u: Users, cmds: seq<Cmd>, a: Tid, b: Tid, q: Queue, na: PC, nb: PC)
      returns (s': State, cmds': seq<Cmd>)
    requires Reached(s, cap, u, cmds) && cap > 0 && a != b && Sleepers(s, q) == [a, b]
    requires StillBlock(s, cap, q) && (if q == Rq then s.writers == 1 else s.readers == 1) && Sleepers(s, Other(q)) == []
    requires Side(q, na) && Side(q, nb)
    requires s.pcs.Keys >= {a, b} && s.pcs[a] == Sleep(q, na) && s.pcs[b] == Sleep(q, nb)
    requires !na.Wake? && !nb.Wake? && forall x :: x in s.pcs ==> s.pcs[x].Idle? || x == a || x == b
    ensures Reached(s', cap, u, cmds') && !NoLostWakeup(s', cap, q) && Stuck(s', q, b)
  {
    hide Reached;
    var c := a + b + 1;
    var close := if q == Rq then CloseWriter(c) else CloseReader(c);
    var s1, c1 := Go(s, cap, u, cmds, close);
    assert s1.pcs == s.pcs[c := Wake(q, Idle)] && Sleepers(s1, q) == [a, b] && Sleepers(s1, Other(q)) == [];
    WakesFirst(s1, cap, c, q, a, b, na);
    s', cmds' := Go(s1, cap, u, c1, Step(c));
    hide Apply, Enabled;
    assert Sleepers(s', q) == [b] && s'.pcs[a] == na;
    assert !PendingWake(s', q);
  }

  /** wake_up of the code with two sleepers. */
  lemma WakesFirst(s: State, cap: nat, c: Tid, q: Queue, a: Tid, b: Tid, na: PC)
    requires Sleepers(s, q) == [a, b] && a in s.pcs && s.pcs[a] == Sleep(q, na) && a != b && c != a && c != b
    requires c in s.pcs && s.pcs[c] == Wake(q, Idle) && LockFree(s, q)
    ensures Enabled(s, Step(c))
    ensures var s' := Apply(s, cap, WakeFirst, Step(c));
            && s'.pcs == s.pcs[a := na][c := Idle] && Sleepers(s', q) == [b] && Sleepers(s', Other(q)) == Sleepers(s, Other(q))
            && s'.contents == s.contents && s'.readers == s.readers && s'.writers == s.writers
  {
    assert [a, b][..1] == [a] && [a, b][1..] == [b];
    var s' := Apply(s, cap, WakeFirst, Step(c));
    assert s'.pcs.Keys == s.pcs.Keys;
  }

  /** Two readers, each with its own end, and one close of the last write end:
      the second reader is never woken. */
  lemma TwoReadersLose(cap: nat, u: Users, a: Tid, b: Tid) returns (cmds: seq<Cmd>)
    requires cap > 0 && a != b && a in u.readers && b in u.readers
    ensures Runs(Fresh(), cap, WakeFirst, cmds) && (forall c :: c in cmds ==> Allowed(u, c))
    ensures !NoLostWakeup(After(Fresh(), cap, WakeFirst, cmds), cap, Rq)
    ensures AsleepForGood(After(Fresh(), cap, WakeFirst, cmds), cap, Rq, b)
  {
    var s, c: seq<Cmd> := Fresh(), [];
    assert Reached(s, cap, u, c);
    var r: PC := Read(1);
    s, c := Go(s, cap, u, c, BeginRead(a, 1));
    s, c := FallAsleep(s, cap, u, c, a, Rq, r);
    assert s.pcs == map[a := Sleep(Rq, r)] && Sleepers(s, Wq) == [];
    s, c := Go(s, cap, u, c, OpenReader(b));
    s, c := Go(s, cap, u, c, BeginRead(b, 1));
    s, c := FallAsleep(s, cap, u, c, b, Rq, r);
    assert s.pcs == map[a := Sleep(Rq, r), b := Sleep(Rq, r)] && Sleepers(s, Wq) == [];
    s, c := OneIsLeft(s, cap, u, c, a, b, Rq, r, r);
    StuckForGood(s, cap, Rq, b);
    cmds := c;
  }

  /** The same for two writers and the last read end. */
  lemma TwoWritersLose(cap: nat, u: Users, a: Tid, b: Tid) returns (cmds: seq<Cmd>)
    requires cap > 0 && a != b && a in u.writers && b in u.writers
    ensures Runs(Fresh(), cap, WakeFirst, cmds) && (forall c :: c in cmds ==> Allowed(u, c))
    ensures !NoLostWakeup(After(Fresh(), cap, WakeFirst, cmds), cap, Wq)
    ensures AsleepForGood(After(Fresh(), cap, WakeFirst, cmds), cap, Wq, b)
  {
    var s, c: seq<Cmd> := Fresh(), [];
    assert Reached(s, cap, u, c);
    var buf: seq<Item> := seq(cap + 1, i => 0);
    var na, nb: PC := Write(0, buf, cap), Write(1, [0], 0);
    s, c := FillUp(cap, u, a, buf);
    s, c := FallAsleep(s, cap, u, c, a, Wq, na);
    assert s.pcs == map[a := Sleep(Wq, na)] && Sleepers(s, Rq) == [];
    s, c := Go(s, cap, u, c, OpenWriter(b));
    s, c := Go(s, cap, u, c, BeginWrite(b, [0]));
    s, c := FallAsleep(s, cap, u, c, b, Wq, nb);
    assert s.pcs == map[a := Sleep(Wq, na), b := Sleep(Wq, nb)] && Sleepers(s, Rq) == [];
    s, c := OneIsLeft(s, cap, u, c, a, b, Wq, na, nb);
    StuckForGood(s, cap, Wq, b);
    cmds := c;
  }

  /** A single write of one item too many fills the channel. */
  lemma FillUp(cap: nat, u: Users, a: Tid, buf: seq<Item>) returns (s: State, c: seq<Cmd>)
    requires cap > 0 && a in u.writers && |buf| == cap + 1
    ensures Reached(s, cap, u, c) && s.pcs == map[a := Write(0, buf, cap)] && |s.contents| == cap
    ensures s.readers == 1 && s.writers == 1 && s.rq == [] && s.wq == [] && s.nextOp == 1
  {
    s, c := Fresh(), [];
    assert Reached(s, cap, u, c);
    s, c := Go(s, cap, u, c, BeginWrite(a, buf));
    s, c := Go(s, cap, u, c, Step(a));
    assert s.pcs == map[a := Wake(Rq, Write(0, buf, cap))];
    s, c := Go(s, cap, u, c, Step(a));
  }

  /** The exact condition for the code as it is: no wake-up is ever lost in the
      runs of these threads if and only if at most one of them reads and at
      most one of them writes. */
  lemma ExactlyOneOfEach(cap: nat, u: Users)
    requires cap > 0
    ensures (forall cmds, q :: Runs(Fresh(), cap, WakeFirst, cmds) && (forall c :: c in cmds ==> Allowed(u, c))
                               ==> NoLostWakeup(After(Fresh(), cap, WakeFirst, cmds), cap, q))
            <==> AtMostOne(u.readers) && AtMostOne(u.writers)
  {
    if AtMostOne(u.readers) && AtMostOne(u.writers) {
      forall cmds, q | Runs(Fresh(), cap, WakeFirst, cmds) && (forall c :: c in cmds ==> Allowed(u, c))
        ensures NoLostWakeup(After(Fresh(), cap, WakeFirst, cmds), cap, q)
      {
        NoWakeupLost(cap, WakeFirst, u, cmds, q);
      }
    } else if !AtMostOne(u.readers) {
      var a, b :| a in u.readers && b in u.readers && a != b;
      var cmds := TwoReadersLose(cap, u, a, b);
    } else {
      var a, b :| a in u.writers && b in u.writers && a != b;
      var cmds := TwoWritersLose(cap, u, a, b);
    }
  }
}
