/** What reads return, and how many ends are open, over all runs. */
module ChannelReads {
  import opened Channel

  // ----- one pass ------------------------------------------------------------------------------

  /** A read pass takes the oldest items, at most n and as many as there are;
      finds the end of file only when the channel is empty with no write end open;
      and otherwise waits with nothing changed. */
  lemma ReadPassExactly(s: State, t: Tid, n: nat)
    requires n > 0
    ensures var s' := ReadPass(s, t, n);
            && (s.contents != [] ==>
                  exists items ::
                    && items + s'.contents == s.contents && s'.removed == s.removed + items
                    && 1 <= |items| <= n && (|items| == n || s'.contents == [])
                    && s'.taken == s.taken + [Taken(n, items, |items|, |s.removed|, |s.contents|, s.writers)]
                    && s'.pcs == s.pcs[t := Wake(Wq, Idle)])
            && (s.contents == [] && s.writers == 0 ==>
                  s' == s.(pcs := s.pcs[t := Idle], taken := s.taken + [Taken(n, [], 0, |s.removed|, 0, 0)]))
            && (s.contents == [] && s.writers > 0 ==> s' == s.(pcs := s.pcs[t := Block(Rq, Read(n))]))
            && s'.readers == s.readers && s'.writers == s.writers && s'.rq == s.rq && s'.wq == s.wq
  {
    if s.contents != [] {
      var take := if |s.contents| < n then |s.contents| else n;
      var items := s.contents[..take];
      assert items + s.contents[take..] == s.contents;
    }
  }

  /** A write pass ends a write that is complete or has no read end left, waits at a
      full channel with nothing changed, and otherwise appends what fits. */
  lemma WritePassExactly(s: State, cap: nat, t: Tid, op: nat, buf: seq<Item>, done: nat)
    requires done <= |buf| && |s.contents| <= cap
    ensures var s' := WritePass(s, cap, t, op, buf, done);
            && s'.removed == s.removed && s'.readers == s.readers && s'.writers == s.writers && s'.taken == s.taken
            && (done == |buf| || s.readers == 0 ==>
                  && s'.contents == s.contents && s'.accepted == s.accepted && s'.pcs == s.pcs[t := Idle]
                  && s'.outcomes == s.outcomes[op := Outcome(buf, if done > 0 || buf == [] then done else -EPIPE, s.readers > 0)])
            && (done < |buf| && s.readers > 0 && |s.contents| == cap ==> s' == s.(pcs := s.pcs[t := Block(Wq, Write(op, buf, done))]))
            && (done < |buf| && s.readers > 0 && |s.contents| < cap ==>
                  exists d ::
                    && done < d <= |buf| && s'.contents == s.contents + buf[done..d] && |s'.contents| <= cap
                    && (d == |buf| || |s'.contents| == cap)
                    && s'.pcs == s.pcs[t := Wake(Rq, Write(op, buf, d))] && s'.outcomes == s.outcomes)
  {
    if done < |buf| && s.readers > 0 && |s.contents| < cap {
      var space := cap - |s.contents|;
      var d := done + if |buf| - done < space then |buf| - done else space;
      assert WritePass(s, cap, t, op, buf, done).contents == s.contents + buf[done..d];
    }
  }

  /** A send that does not block: refused without a read end, put off by a full
      channel, and otherwise appended. */
  lemma TrySendExactly(s: State, cap: nat, policy: Policy, t: Tid, m: Item)
    requires Enabled(s, TrySend(t, m)) && |s.contents| <= cap
    ensures var s' := Apply(s, cap, policy, TrySend(t, m));
            && (s.readers == 0 ==> s'.contents == s.contents && s'.outcomes == s.outcomes[s.nextOp := Outcome([m], -EPIPE, false)])
            && (s.readers > 0 && |s.contents| == cap ==>
                  s'.contents == s.contents && s'.outcomes == s.outcomes[s.nextOp := Outcome([m], -EAGAIN, true)])
            && (s.readers > 0 && |s.contents| < cap ==>
                  s'.contents == s.contents + [m] && s'.pcs == s.pcs[t := Wake(Rq, Write(s.nextOp, [m], 1))])
  {
  }

  // ----- all runs --------------------------------------------------------------------------------

  /** The items of the reads, one after the other. */
  function Joined(all: seq<Taken>): seq<Item> {
    if all == [] then [] else Joined(all[..|all| - 1]) + all[|all| - 1].items
  }

  lemma JoinedSnoc(all: seq<Taken>, r: Taken)
    ensures Joined(all + [r]) == Joined(all) + r.items
  {
    assert (all + [r])[..|all|] == all;
  }

  /** Between one and n items, as many as were there; none only at the end of file. */
  predicate Fair(r: Taken) {
    && r.n > 0 && r.ret == |r.items| && |r.items| == (if r.n < r.had then r.n else r.had)
    && (r.ret == 0 ==> r.had == 0 && r.writers == 0)
  }

  /** The items are a stretch of what was removed. */
  predicate Consecutive(removed: seq<Item>, r: Taken) {
    r.at + |r.items| <= |removed| && removed[r.at..r.at + |r.items|] == r.items
  }

  /** Every thread that reads asks for something. */
  predicate Asks(pc: PC)
  {
    match pc
    case Read(n) => n > 0
    case Block(_, next) => Asks(next)
    case Commit(_, next) => Asks(next)
    case Sleep(_, next) => Asks(next)
    case Wake(_, next) => Asks(next)
    case _ => true
  }

  ghost predicate Inv(s: State) {
    && (forall t :: t in s.pcs ==> Asks(s.pcs[t]))
    && (forall i :: 0 <= i < |s.taken| ==> Fair(s.taken[i]) && Consecutive(s.removed, s.taken[i]))
    && Joined(s.taken) == s.removed
  }

  lemma EndReadInv(s: State, n: nat, items: seq<Item>, s': State)
    requires Inv(s) && n > 0 && (items == [] ==> s.contents == [] && s.writers == 0)
    requires |items| == (if n < |s.contents| then n else |s.contents|)
    requires s'.removed == s.removed + items && (forall t :: t in s'.pcs ==> Asks(s'.pcs[t]))
    requires s'.taken == s.taken + [Taken(n, items, |items|, |s.removed|, |s.contents|, s.writers)]
    ensures Inv(s')
  {
    var r := Taken(n, items, |items|, |s.removed|, |s.contents|, s.writers);
    JoinedSnoc(s.taken, r);
    forall i | 0 <= i < |s'.taken| ensures Fair(s'.taken[i]) && Consecutive(s'.removed, s'.taken[i]) {
      if i < |s.taken| {
        var x := s.taken[i];
        assert s'.taken[i] == x && Fair(x) && Consecutive(s.removed, x);
        assert s'.removed[x.at..x.at + |x.items|] == s.removed[x.at..x.at + |x.items|];
      } else {
        assert s'.removed[r.at..r.at + |items|] == items;
      }
    }
  }

  lemma QuietInv(s: State, s': State)
    requires Inv(s) && s'.taken == s.taken && s'.removed == s.removed && forall t :: t in s'.pcs ==> Asks(s'.pcs[t])
    ensures Inv(s')
  {
  }

  lemma ReadInv(s: State, t: Tid, n: nat)
    requires Inv(s) && n > 0
    ensures Inv(ReadPass(s, t, n))
  {
    ReadPassExactly(s, t, n);
    var s' := ReadPass(s, t, n);
    hide ReadPass;
    if s.contents != [] {
      var items :| items + s'.contents == s.contents && s'.removed == s.removed + items
                   && 1 <= |items| <= n && (|items| == n || s'.contents == [])
                   && s'.taken == s.taken + [Taken(n, items, |items|, |s.removed|, |s.contents|, s.writers)];
      assert |items| + |s'.contents| == |s.contents|;
      EndReadInv(s, n, items, s');
    } else if s.writers == 0 {
      EndReadInv(s, n, [], s');
    } else {
      QuietInv(s, s');
    }
  }

  lemma StepInv(s: State, cap: nat, policy: Policy, c: Cmd)
    requires Inv(s) && Enabled(s, c)
    ensures Inv(Apply(s, cap, policy, c))
  {
    if c.Step? && Pc(s, c.t).Read? {
      assert Asks(s.pcs[c.t]);
      ReadInv(s, c.t, Pc(s, c.t).n);
    } else {
      var s' := Apply(s, cap, policy, c);
      forall t | t in s'.pcs ensures Asks(s'.pcs[t]) {
        if t in s.pcs { assert Asks(s.pcs[t]); }
        if c.Step? { assert Asks(s.pcs[c.t]); }
      }
      QuietInv(s, s');
    }
  }

  lemma {:induction false} RunInv(s: State, cap: nat, policy: Policy, cmds: seq<Cmd>)
    requires Inv(s) && Runs(s, cap, policy, cmds)
    ensures Inv(After(s, cap, policy, cmds))
    decreases |cmds|
  {
    hide Inv, Enabled, Apply;
    if cmds != [] {
      StepInv(s, cap, policy, cmds[0]);
      RunInv(Apply(s, cap, policy, cmds[0]), cap, policy, cmds[1..]);
    }
  }

  /** Over every interleaving: what finished reads returned, one after the other,
      is what was removed; each returns at most what it asked for and as much of
      it as was there, and 0 only when the channel was empty with no write end
      open. */
  lemma ReadsAreFair(cap: nat, policy: Policy, cmds: seq<Cmd>)
    requires Runs(Fresh(), cap, policy, cmds)
    ensures var s := After(Fresh(), cap, policy, cmds);
            && Joined(s.taken) == s.removed
            && (forall i :: 0 <= i < |s.taken| ==>
                  var r := s.taken[i];
                  && r.ret == |r.items| <= r.n && |r.items| == (if r.n < r.had then r.n else r.had)
                  && (r.ret == 0 <==> r.had == 0) && (r.ret == 0 ==> r.writers == 0)
                  && r.at + |r.items| <= |s.removed| && s.removed[r.at..r.at + |r.items|] == r.items)
  {
    RunInv(Fresh(), cap, policy, cmds);
    var s := After(Fresh(), cap, policy, cmds);
    forall i | 0 <= i < |s.taken| ensures Fair(s.taken[i]) && Consecutive(s.removed, s.taken[i]) {}
  }

  // ----- open ends -----------------------------------------------------------------------------------

  predicate Opening(c: Cmd, q: Queue) {
    if q == Rq then c.OpenReader? else c.OpenWriter?
  }

  predicate Closing(c: Cmd, q: Queue) {
    if q == Rq then c.CloseReader? else c.CloseWriter?
  }

  function Opened(cmds: seq<Cmd>, q: Queue): nat {
    if cmds == [] then 0 else (if Opening(cmds[0], q) then 1 else 0) + Opened(cmds[1..], q)
  }

  function Closed(cmds: seq<Cmd>, q: Queue): nat {
    if cmds == [] then 0 else (if Closing(cmds[0], q) then 1 else 0) + Closed(cmds[1..], q)
  }

  lemma {:induction false} EndsRun(s: State, cap: nat, policy: Policy, cmds: seq<Cmd>)
    requires Runs(s, cap, policy, cmds)
    ensures var s' := After(s, cap, policy, cmds);
            && s'.readers + Closed(cmds, Rq) == s.readers + Opened(cmds, Rq)
            && s'.writers + Closed(cmds, Wq) == s.writers + Opened(cmds, Wq)
    decreases |cmds|
  {
    if cmds != [] {
      EndsRun(Apply(s, cap, policy, cmds[0]), cap, policy, cmds[1..]);
    }
  }

  /** The open ends are those of the fresh channel and those opened since, less
      those closed. */
  lemma EndsAddUp(cap: nat, policy: Policy, cmds: seq<Cmd>)
    requires Runs(Fresh(), cap, policy, cmds)
    ensures var s := After(Fresh(), cap, policy, cmds);
            && s.readers + Closed(cmds, Rq) == 1 + Opened(cmds, Rq)
            && s.writers + Closed(cmds, Wq) == 1 + Opened(cmds, Wq)
  {
    EndsRun(Fresh(), cap, policy, cmds);
  }
}
