/** Who put a message into a queue, and with which right. */
module PortTraffic {
  import opened Basics
  import opened HandleSpec
  import opened HandleInvariant
  import opened HandleSteps
  import opened HandleRuns
  import opened HandleCalls
  import ProcessSteps
  import PortSend

  // ----- steps that neither pin nor touch a queue ----------------------------------------------

  /** Nobody is newly pinned. */
  ghost predicate PinsKept(s: State, s': State) {
    forall q :: ActOf(s', q).Pinned? ==> ActOf(s', q) == ActOf(s, q)
  }

  ghost predicate QueuesKept(s: State, s': State) {
    forall x :: x in s.objs && x in s'.objs ==> s'.objs[x].queue == s.objs[x].queue
  }

  /** What is newly allocated has an empty queue. */
  ghost predicate NewIsEmpty(s: State, s': State) {
    forall x :: x in s'.objs && x !in s.objs ==> s'.objs[x].queue == []
  }

  ghost predicate Silent(s: State, s': State) {
    PinsKept(s, s') && QueuesKept(s, s') && NewIsEmpty(s, s')
  }

  lemma SameIsSilent(s: State, s': State, p: Pid, a: Act)
    requires SameObjects(s, s') && (s'.acts == s.acts || s'.acts == s.acts[p := a]) && !a.Pinned?
    ensures Silent(s, s')
  {
    forall x | x in s.objs ensures s'.objs[x].queue == s.objs[x].queue {
      assert SameIdentity(s.objs[x], s'.objs[x]);
    }
  }

  lemma SelfSame(s: State)
    ensures SameObjects(s, s)
  {
  }

  lemma GainsSame(s: State, s': State, p: Pid, h: int, o: ObjId)
    requires Gains(s, s', p, h, o)
    ensures SameObjects(s, s')
  {
  }

  lemma NewHandleSilent(s: State, p: Pid, r: Rights)
    requires Inv(s) && ActOf(s, p).Creating?
    ensures Silent(s, InstallNew(s, p, r).0) && Silent(s, InstallPipe(s, p).0)
  {
    hide Inv, InstallNew, InstallPipe, Gains, SameObjects, Silent;
    InstallNewExactly(s, p, r);
    InstallPipeExactly(s, p);
    var o := s.acts[p].obj;
    var (s1, h) := InstallNew(s, p, r);
    SelfSame(s);
    SelfMoved(s, p, Freeing(o));
    if h >= 0 {
      GainsSame(s, s1, p, h, o);
      SameIsSilent(s, s1, p, Idle);
    }
    var (s2, rfd, wfd) := InstallPipe(s, p);
    SameIsSilent(s, s2, p, if rfd < 0 then Freeing(o) else Idle);
  }

  lemma SelfMoved(s: State, p: Pid, a: Act)
    requires !a.Pinned?
    ensures Silent(s, s) && Silent(s, s.(acts := s.acts[p := a]))
  {
  }

  lemma CopySilent(s: State, p: Pid, t: Pid, v: Verdict, h: int, r: Rights)
    requires Inv(s)
    ensures Silent(s, Dup(s, p, h, r).0) && Silent(s, Grant(s, p, t, v, h, r).0)
  {
    hide Inv, Dup, Grant, Gains, SameObjects, Silent;
    DupExactly(s, p, h, r);
    GrantExactly(s, p, t, v, h, r);
    SelfMoved(s, p, Idle);
    var (s1, a) := Dup(s, p, h, r);
    if a >= 0 {
      GainsSame(s, s1, p, a, s.tables[p][h].obj);
      SameIsSilent(s, s1, p, Idle);
    }
    var (s2, b) := Grant(s, p, t, v, h, r);
    if b >= 0 {
      GainsSame(s, s2, t, b, s.tables[p][h].obj);
      SameIsSilent(s, s2, p, Idle);
    }
  }

  lemma CloseSilent(s: State, p: Pid, h: int)
    requires Inv(s) && ActOf(s, p).Idle?
    ensures Silent(s, Close(s, p, h).0)
  {
    hide Inv, Close, SameObjects, Silent, OnlySlot;
    CloseExactly(s, p, h);
    SelfMoved(s, p, Idle);
    if Handle(s, p, h) {
      SameIsSilent(s, Close(s, p, h).0, p, Freeing(s.tables[p][h].obj));
    }
  }

  lemma UnpinSilent(s: State, p: Pid)
    requires Inv(s) && ActOf(s, p).Pinned?
    ensures Silent(s, Unpin(s, p))
  {
    hide Inv, Unpin, SameObjects, Silent;
    UnpinExactly(s, p);
    var o := s.acts[p].obj;
    SameIsSilent(s, Unpin(s, p), p, if s.objs[o].refcount == 1 then Freeing(o) else Idle);
  }

  lemma LookupSilent(s: State, p: Pid, path: string, r: Rights)
    requires Inv(s) && ActOf(s, p).Idle?
    ensures Silent(s, PortLookup(s, p, path, r).0)
  {
    hide Inv, PortLookup, Gains, SameObjects, Silent, Taken;
    SelfMoved(s, p, Idle);
    var (s', h) := PortLookup(s, p, path, r);
    if Read in r {
      LookupPublishes(s, p, path, r);
      if h == 0 {
        SelfMoved(s, p, s'.acts[p]);
      }
    } else {
      LookupSends(s, p, path, r);
      if h >= 0 {
        var i :| 0 <= i < 16 && Carries(s, i, path) && s.ports[i].Some? && Gains(s, s', p, h, s.ports[i].value);
        GainsSame(s, s', p, h, s.ports[i].value);
        SameIsSilent(s, s', p, Idle);
      }
    }
  }

  lemma PublishSilent(s: State, p: Pid)
    requires Inv(s) && ActOf(s, p).PortReady?
    ensures Silent(s, PortPublish(s, p).0)
  {
    hide Inv, PortPublish, Gains, SameObjects, Silent, Taken;
    PublishExactly(s, p);
    var (s', h) := PortPublish(s, p);
    SelfMoved(s, p, Freeing(s.acts[p].obj));
    if h >= 0 {
      GainsSame(s, s'.(ports := s.ports), p, h, s.acts[p].obj);
      SameIsSilent(s, s'.(ports := s.ports), p, Idle);
      PortsSilent(s, s', s.ports);
    }
  }

  lemma PortsSilent(s: State, s': State, ports: PortTable)
    requires Silent(s, s'.(ports := ports))
    ensures Silent(s, s')
  {
    var s1 := s'.(ports := ports);
    assert forall q :: ActOf(s1, q) == ActOf(s', q);
  }

  lemma PortAllocSilent(s: State, p: Pid, o: ObjId)
    requires ActOf(s, p).PortSlot? && o !in s.objs
    ensures Silent(s, PortAlloc(s, p, o))
  {
    AllocExactly(s, p, o);
    hide PortAlloc;
  }

  lemma StdioSilent(s: State, q: Pid, p: Pid)
    requires Inv(s) && ActOf(s, q).Creating? && p in s.tables
    ensures Silent(s, InstallStdio(s, q, p))
  {
    hide Inv, InstallStdio, SameObjects, Silent;
    StdioExactly(s, q, p);
    SameIsSilent(s, InstallStdio(s, q, p), q, Idle);
  }

  lemma RedirectSilent(s: State, p: Pid, owner: Pid, child: Pid, slot: int, fd: int)
    requires Inv(s) && ActOf(s, p).Idle?
    ensures Silent(s, Redirect(s, p, owner, child, slot, fd).0)
  {
    hide Inv, Redirect, SameObjects, Silent;
    RedirectExactly(s, p, owner, child, slot, fd);
    var s' := Redirect(s, p, owner, child, slot, fd).0;
    SameIsSilent(s, s', p, if Handle(s, child, slot) then Freeing(s.tables[child][slot].obj) else Idle);
  }

  lemma SilentTwice(s: State, s1: State, s2: State)
    requires Silent(s, s1) && Silent(s1, s2) && s1.objs.Keys <= s.objs.Keys && s2.objs.Keys <= s1.objs.Keys
    ensures Silent(s, s2) && s2.objs.Keys <= s.objs.Keys
  {
  }

  lemma DestroySlotSilent(s: State, p: Pid, i: nat)
    requires Inv(s) && p in s.tables && i < NPROC_HANDLES && s.tables[p][i].Used?
    ensures var s' := ProcessSteps.DestroySlot(s, p, i); Silent(s, s') && s'.objs.Keys <= s.objs.Keys
  {
    hide Inv, Drop, SameObjects, OnlySlot;
    NamedLive(s, p, i);
    DropExactly(s, p, i);
    SameIsSilent(s, Drop(s, p, i), p, Idle);
    SameKeys(s, Drop(s, p, i));
  }

  lemma {:induction false} DestroySilent(s: State, p: Pid, i: nat)
    requires Inv(s) && p in s.tables && i <= NPROC_HANDLES
    ensures var s' := DestroyFrom(s, p, i); Silent(s, s') && s'.objs.Keys <= s.objs.Keys
    decreases NPROC_HANDLES - i
  {
    hide Inv, Silent, DestroyFrom, ProcessSteps.DestroySlot;
    if i == NPROC_HANDLES {
      ProcessSteps.DestroyEnd(s, p);
      SelfMoved(s, p, Idle);
      return;
    }
    ProcessSteps.DestroyUnfold(s, p, i);
    if s.tables[p][i].Free? {
      DestroySilent(s, p, i + 1);
    } else {
      var s1 := ProcessSteps.DestroySlot(s, p, i);
      ProcessSteps.DestroySlotInv(s, p, i);
      DestroySlotSilent(s, p, i);
      DestroySilent(s1, p, i + 1);
      SilentTwice(s, s1, DestroyFrom(s, p, i));
    }
  }

  lemma PlainSilent(s: State, c: Cmd)
    requires Inv(s) && Enabled(s, c) && (c.CEnsureTable? || c.CAlloc? || c.CRelease?)
    ensures Silent(s, Apply(s, c))
  {
    hide Inv;
  }

  /** Every step but a pin, a write, a read and a send. */
  lemma StepSilent(s: State, c: Cmd)
    requires Inv(s) && Enabled(s, c) && !c.CPin? && !c.CPortWrite? && !c.CPortRead? && !c.CSendCaps?
    ensures Silent(s, Apply(s, c))
  {
    hide Inv, Silent, InstallNew, InstallPipe, Dup, Grant, Close, Unpin, PortLookup, PortAlloc, PortPublish, InstallStdio, Redirect,
      DestroyFrom;
    match c
    case CEnsureTable(p) => PlainSilent(s, c);
    case CAlloc(p, o, t) => PlainSilent(s, c);
    case CRelease(p) => PlainSilent(s, c);
    case CInstallNew(p, r) => NewHandleSilent(s, p, r);
    case CInstallPipe(p) => NewHandleSilent(s, p, {});
    case CDup(p, h, r) => CopySilent(s, p, p, Found, h, r);
    case CGrant(p, t, v, h, r) => CopySilent(s, p, t, v, h, r);
    case CClose(p, h) => CloseSilent(s, p, h);
    case CUnpin(p) => UnpinSilent(s, p);
    case CPortLookup(p, path, r) => LookupSilent(s, p, path, r);
    case CPortAlloc(p, o) => PortAllocSilent(s, p, o);
    case CPortPublish(p) => PublishSilent(s, p);
    case CStdio(p, child) => StdioSilent(s, p, child);
    case CRedirect(p, owner, child, slot, h) => RedirectSilent(s, p, owner, child, slot, h);
    case CDestroy(p) =>
      SelfMoved(s, p, Idle);
      if p in s.tables {
        DestroySilent(s, p, 0);
        TableGone(s, DestroyFrom(s, p, 0), p);
      }
  }

  lemma TableGone(s: State, s1: State, p: Pid)
    requires Silent(s, s1)
    ensures Silent(s, s1.(tables := s1.tables - {p}))
  {
    var s' := s1.(tables := s1.tables - {p});
    assert forall q :: ActOf(s', q) == ActOf(s1, q);
  }

  // ----- steps that do -------------------------------------------------------------------------

  /** p is inside a call on o that asked for the right. */
  predicate Using(s: State, p: Pid, o: ObjId, right: Right) {
    PinnedOn(ActOf(s, p), o) && right in ActOf(s, p).need
  }

  /** c appends m to the queue of o on behalf of m.from, which is inside a call
      that asked for WRITE. */
  ghost predicate Sends(s: State, c: Cmd, s': State, o: ObjId, m: Message) {
    && o in s.objs && o in s'.objs && s'.objs[o].queue == s.objs[o].queue + [m] && |s.objs[o].queue| < 32
    && m.from == c.p && Using(s, c.p, o, Write) && (c.CPortWrite? || c.CSendCaps?)
  }

  /** c takes m from the front of the queue of o, inside a call that asked for READ. */
  ghost predicate Receives(s: State, c: Cmd, s': State, o: ObjId, m: Message) {
    && o in s.objs && o in s'.objs && s.objs[o].queue == [m] + s'.objs[o].queue
    && Using(s, c.p, o, Read) && c.CPortRead?
  }

  /** Every step leaves a queue alone, sends or receives. */
  ghost predicate Moves(s: State, c: Cmd, s': State, o: ObjId)
    requires o in s.objs && o in s'.objs
  {
    || s'.objs[o].queue == s.objs[o].queue
    || (exists m :: Sends(s, c, s', o, m))
    || (exists m :: Receives(s, c, s', o, m))
  }

  lemma WriteMoves(s: State, p: Pid, m: Message, o: ObjId)
    requires Inv(s) && Enabled(s, CPortWrite(p, m)) && o in s.objs
    ensures var s' := PortWrite(s, p, m).0;
            o in s'.objs && Moves(s, CPortWrite(p, m), s', o) && NewIsEmpty(s, s') && s'.acts == s.acts
  {
    PortWriteExactly(s, p, m);
    hide Inv, PortWrite;
    var (s', r) := PortWrite(s, p, m);
    if r == MESSAGE_SIZE && o == s.acts[p].obj {
      assert Sends(s, CPortWrite(p, m), s', o, Message(p, m.kind, m.data1, m.data2, m.payload));
    }
  }

  lemma ReadMoves(s: State, p: Pid, o: ObjId)
    requires Inv(s) && Enabled(s, CPortRead(p)) && o in s.objs
    ensures var s' := PortRead(s, p).0;
            o in s'.objs && Moves(s, CPortRead(p), s', o) && NewIsEmpty(s, s') && s'.acts == s.acts
  {
    PortReadExactly(s, p);
    hide Inv, PortRead;
    var (s', r, m) := PortRead(s, p);
    if r == MESSAGE_SIZE && o == s.acts[p].obj {
      assert Receives(s, CPortRead(p), s', o, m.value);
    }
  }

  lemma SendMoves(s: State, p: Pid, alive: bool, m: Message, fds: seq<int>, o: ObjId)
    requires Inv(s) && Enabled(s, CSendCaps(p, alive, m, fds)) && o in s.objs
    ensures var s' := SendCaps(s, p, alive, m, fds).state;
            o in s'.objs && Moves(s, CSendCaps(p, alive, m, fds), s', o) && NewIsEmpty(s, s') && s'.acts == s.acts
  {
    hide Inv, SendCaps, PortSend.Lent, PortSend.Faithful;
    var c, s' := CSendCaps(p, alive, m, fds), SendCaps(s, p, alive, m, fds).state;
    if SendCaps(s, p, alive, m, fds).ret < 0 {
      PortSend.SendFailsClean(s, p, alive, m, fds);
    } else {
      PortSend.SendDelivers(s, p, alive, m, fds);
      var pinned := s.acts[p].obj;
      var slots :| PortSend.Delivered(s, s', p, pinned, m, fds, slots);
      if o == pinned {
        var sent :| s'.objs[o].queue == s.objs[o].queue + [sent] && PortSend.Carries(sent, m, p, slots);
        PortSend.RoomToSend(s, p, alive, m, fds);
        assert Sends(s, c, s', o, sent);
      }
    }
  }

  lemma StepMoves(s: State, c: Cmd, o: ObjId)
    requires Inv(s) && Enabled(s, c) && o in s.objs && o in Apply(s, c).objs
    ensures Moves(s, c, Apply(s, c), o)
  {
    hide Inv, Moves, PortWrite, PortRead, SendCaps, Pin;
    if c.CPortWrite? {
      WriteMoves(s, c.p, c.m, o);
    } else if c.CPortRead? {
      ReadMoves(s, c.p, o);
    } else if c.CSendCaps? {
      SendMoves(s, c.p, c.alive, c.m, c.fds, o);
    } else {
      QuietMoves(s, c, o);
    }
  }

  lemma QuietMoves(s: State, c: Cmd, o: ObjId)
    requires Inv(s) && Enabled(s, c) && o in s.objs && o in Apply(s, c).objs
    requires !c.CPortWrite? && !c.CPortRead? && !c.CSendCaps?
    ensures Moves(s, c, Apply(s, c), o)
  {
    hide Inv;
    if c.CPin? {
      PinExactly(s, c.p, c.h, c.rights);
      hide Pin;
      assert SameObjects(s, Apply(s, c)) || Apply(s, c) == s;
    } else {
      StepSilent(s, c);
      hide Apply, Enabled;
    }
  }

  /** Who is pinned after a step was so before, or has just shown a handle with the
      rights the call asked for. */
  lemma PinStep(s: State, c: Cmd, p: Pid)
    requires Inv(s) && Enabled(s, c) && ActOf(Apply(s, c), p).Pinned?
    ensures ActOf(Apply(s, c), p) == ActOf(s, p) || PinsNow(s, c, p, ActOf(Apply(s, c), p))
  {
    hide Inv, PortWrite, PortRead, SendCaps, Pin;
    if c.CPortWrite? {
      PinLive(s, c.p);
      WriteMoves(s, c.p, c.m, s.acts[c.p].obj);
    } else if c.CPortRead? {
      PinLive(s, c.p);
      ReadMoves(s, c.p, s.acts[c.p].obj);
    } else if c.CSendCaps? {
      PinLive(s, c.p);
      SendMoves(s, c.p, c.alive, c.m, c.fds, s.acts[c.p].obj);
    } else if c.CPin? {
      PinExactly(s, c.p, c.h, c.rights);
    } else {
      StepSilent(s, c);
      hide Apply, Enabled;
    }
  }

  /** The step is pin_handle of p, on a handle that holds all the call asks for. */
  predicate PinsNow(s: State, c: Cmd, p: Pid, a: Act) {
    && c.CPin? && c.p == p && Handle(s, p, c.h) && c.rights <= s.tables[p][c.h].rights
    && a == Pinned(s.tables[p][c.h].obj, c.rights)
  }

  // ----- runs, state by state -------------------------------------------------------------------

  predicate StepAt(cmds: seq<Cmd>, ss: seq<State>, i: nat)
    requires |ss| == |cmds| + 1 && i < |cmds|
  {
    Enabled(ss[i], cmds[i]) && ss[i + 1] == Apply(ss[i], cmds[i])
  }

  /** ss are the states a run goes through. */
  ghost predicate Trace(cmds: seq<Cmd>, ss: seq<State>) {
    |ss| == |cmds| + 1 && ss[0] == Boot() && forall i :: 0 <= i < |cmds| ==> StepAt(cmds, ss, i)
  }

  lemma {:induction false} StatesFrom(s: State, cmds: seq<Cmd>) returns (ss: seq<State>)
    requires Runs(s, cmds)
    ensures |ss| == |cmds| + 1 && ss[0] == s && ss[|cmds|] == After(s, cmds)
    ensures forall i :: 0 <= i < |cmds| ==> StepAt(cmds, ss, i)
    decreases |cmds|
  {
    hide Enabled, Apply;
    if cmds == [] {
      ss := [s];
    } else {
      var rest := StatesFrom(Apply(s, cmds[0]), cmds[1..]);
      ss := [s] + rest;
      forall i | 0 <= i < |cmds| ensures StepAt(cmds, ss, i) {
        if i > 0 {
          assert StepAt(cmds[1..], rest, i - 1);
        }
      }
    }
  }

  lemma {:induction false} TraceInv(cmds: seq<Cmd>, ss: seq<State>, n: nat)
    requires Trace(cmds, ss) && n <= |cmds|
    ensures Inv(ss[n])
  {
    hide Inv, Enabled, Apply;
    if n == 0 {
      BootInv();
    } else {
      TraceInv(cmds, ss, n - 1);
      assert StepAt(cmds, ss, n - 1);
      ApplyInv(ss[n - 1], cmds[n - 1]);
    }
  }

  /** p entered at step j, by a handle to o that held `need`, the call it is still
      in at state n. */
  ghost predicate Entered(cmds: seq<Cmd>, ss: seq<State>, j: nat, n: nat, p: Pid, a: Act)
    requires |ss| == |cmds| + 1
  {
    && j < n <= |cmds| && PinsNow(ss[j], cmds[j], p, a)
    && forall i :: j < i <= n ==> ActOf(ss[i], p) == a
  }

  lemma {:induction false} PinOrigin(cmds: seq<Cmd>, ss: seq<State>, n: nat, p: Pid) returns (j: nat)
    requires Trace(cmds, ss) && n <= |cmds| && ActOf(ss[n], p).Pinned?
    ensures Entered(cmds, ss, j, n, p, ActOf(ss[n], p))
  {
    hide Inv, Enabled, Apply, PinsNow;
    assert n > 0 by {
      assert ActOf(Boot(), p) == Idle;
    }
    TraceInv(cmds, ss, n - 1);
    assert StepAt(cmds, ss, n - 1);
    PinStep(ss[n - 1], cmds[n - 1], p);
    if PinsNow(ss[n - 1], cmds[n - 1], p, ActOf(ss[n], p)) {
      j := n - 1;
    } else {
      j := PinOrigin(cmds, ss, n - 1, p);
    }
  }

  /** m was queued on o at step i by a process that entered its call at step j by
      a handle to o that held WRITE; o is the same object all the way to state n. */
  ghost predicate WasSent(cmds: seq<Cmd>, ss: seq<State>, j: nat, i: nat, n: nat, o: ObjId, m: Message)
    requires |ss| == |cmds| + 1
  {
    && j < i < n <= |cmds| && Sends(ss[i], cmds[i], ss[i + 1], o, m)
    && Entered(cmds, ss, j, i, m.from, ActOf(ss[i], m.from))
    && Handle(ss[j], m.from, cmds[j].h) && ss[j].tables[m.from][cmds[j].h].obj == o && Write in ss[j].tables[m.from][cmds[j].h].rights
    && forall t :: j <= t <= n ==> o in ss[t].objs
  }

  lemma NewlySent(cmds: seq<Cmd>, ss: seq<State>, i: nat, o: ObjId, m: Message) returns (j: nat)
    requires Trace(cmds, ss) && i < |cmds| && Sends(ss[i], cmds[i], ss[i + 1], o, m)
    ensures WasSent(cmds, ss, j, i, i + 1, o, m)
  {
    hide Inv, Enabled, Apply;
    j := PinOrigin(cmds, ss, i, m.from);
    forall t | j <= t <= i + 1 ensures o in ss[t].objs {
      if t <= i {
        TraceInv(cmds, ss, t);
        if t == j {
          NamedLive(ss[j], m.from, cmds[j].h);
        } else {
          PinLive(ss[t], m.from);
        }
      }
    }
  }

  /** Every message in every queue of every reachable state was put there by the
      process it names, which held WRITE on that port when it entered the call. */
  lemma {:induction false} EveryMessageWasSent(cmds: seq<Cmd>, ss: seq<State>, n: nat, o: ObjId, k: nat) returns (j: nat, i: nat)
    requires Trace(cmds, ss) && n <= |cmds| && o in ss[n].objs && k < |ss[n].objs[o].queue|
    ensures WasSent(cmds, ss, j, i, n, o, ss[n].objs[o].queue[k])
  {
    hide Inv, Enabled, Apply, Sends, Receives, Entered;
    assert n > 0 by {
      assert Boot().objs == map[];
    }
    var s, c, s' := ss[n - 1], cmds[n - 1], ss[n];
    var m := s'.objs[o].queue[k];
    TraceInv(cmds, ss, n - 1);
    assert StepAt(cmds, ss, n - 1);
    OldQueue(s, c, o);
    StepMoves(s, c, o);
    if s'.objs[o].queue == s.objs[o].queue {
      j, i := EveryMessageWasSent(cmds, ss, n - 1, o, k);
    } else if x :| Sends(s, c, s', o, x) {
      SendsWhat(s, c, s', o, x);
      if k < |s.objs[o].queue| {
        j, i := EveryMessageWasSent(cmds, ss, n - 1, o, k);
      } else {
        i := n - 1;
        j := NewlySent(cmds, ss, i, o, m);
      }
    } else {
      var x :| Receives(s, c, s', o, x);
      ReceivesWhat(s, c, s', o, x);
      j, i := EveryMessageWasSent(cmds, ss, n - 1, o, k + 1);
    }
  }

  lemma OldQueue(s: State, c: Cmd, o: ObjId)
    requires Inv(s) && Enabled(s, c) && o in Apply(s, c).objs && Apply(s, c).objs[o].queue != []
    ensures o in s.objs
  {
    hide Inv, PortWrite, PortRead, SendCaps, Pin;
    if c.CPortWrite? {
      PinLive(s, c.p);
      WriteMoves(s, c.p, c.m, s.acts[c.p].obj);
    } else if c.CPortRead? {
      PinLive(s, c.p);
      ReadMoves(s, c.p, s.acts[c.p].obj);
    } else if c.CSendCaps? {
      PinLive(s, c.p);
      SendMoves(s, c.p, c.alive, c.m, c.fds, s.acts[c.p].obj);
    } else if c.CPin? {
      PinExactly(s, c.p, c.h, c.rights);
    } else {
      StepSilent(s, c);
      hide Apply, Enabled;
    }
  }

  lemma SendsWhat(s: State, c: Cmd, s': State, o: ObjId, m: Message)
    requires Sends(s, c, s', o, m)
    ensures o in s.objs && o in s'.objs && s'.objs[o].queue == s.objs[o].queue + [m]
  {
  }

  lemma ReceivesWhat(s: State, c: Cmd, s': State, o: ObjId, m: Message)
    requires Receives(s, c, s', o, m)
    ensures o in s.objs && o in s'.objs && s.objs[o].queue == [m] + s'.objs[o].queue
  {
  }

  /** And whoever takes one held READ on that port when it entered the call. */
  lemma EveryReaderHeldRead(cmds: seq<Cmd>, ss: seq<State>, i: nat, o: ObjId, m: Message) returns (j: nat)
    requires Trace(cmds, ss) && i < |cmds| && Receives(ss[i], cmds[i], ss[i + 1], o, m)
    ensures j < i && Entered(cmds, ss, j, i, cmds[i].p, ActOf(ss[i], cmds[i].p))
    ensures var p, h := cmds[i].p, cmds[j].h;
            Handle(ss[j], p, h) && ss[j].tables[p][h].obj == o && Read in ss[j].tables[p][h].rights
  {
    j := PinOrigin(cmds, ss, i, cmds[i].p);
  }

  /** No queue ever holds more than 32 messages. */
  lemma {:induction false} QueuesBounded(cmds: seq<Cmd>, ss: seq<State>, n: nat, o: ObjId)
    requires Trace(cmds, ss) && n <= |cmds| && o in ss[n].objs
    ensures |ss[n].objs[o].queue| <= 32
  {
    hide Inv, Enabled, Apply;
    if n > 0 && ss[n].objs[o].queue != [] {
      var s, c := ss[n - 1], cmds[n - 1];
      TraceInv(cmds, ss, n - 1);
      assert StepAt(cmds, ss, n - 1);
      OldQueue(s, c, o);
      StepMoves(s, c, o);
      QueuesBounded(cmds, ss, n - 1, o);
    }
  }
}
