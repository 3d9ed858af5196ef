/** Is every port that has a receiver in the port table?  It is, in every state of
    a run, exactly if no publication of the run finds its slot taken. */
module PortListed {
  import opened Basics
  import opened HandleSpec
  import opened HandleInvariant
  import opened HandleSteps
  import opened HandleRuns
  import ProcessSteps
  import PortSend
  import PortSteps

  predicate LivePort(s: State, o: ObjId) {
    o in s.objs && s.objs[o].typ == Port && s.objs[o].readers > 0
  }

  predicate Listed(s: State, o: ObjId) {
    exists i :: 0 <= i < PORT_TABLE_MAX && s.ports[i] == Some(o)
  }

  ghost predicate AllListed(s: State) {
    forall o :: LivePort(s, o) ==> Listed(s, o)
  }

  /** A publication that goes through at a slot that was taken meanwhile. */
  predicate Displaces(s: State, c: Cmd)
    requires Enabled(s, c)
  {
    c.CPortPublish? && PortPublish(s, c.p).1 >= 0 && s.ports[s.acts[c.p].slot].Some?
  }

  ghost predicate AlwaysListed(s: State, cmds: seq<Cmd>)
    requires Runs(s, cmds)
    decreases |cmds|
  {
    AllListed(s) && (cmds == [] || AlwaysListed(Apply(s, cmds[0]), cmds[1..]))
  }

  predicate NeverDisplaces(s: State, cmds: seq<Cmd>)
    requires Runs(s, cmds)
    decreases |cmds|
  {
    cmds == [] || (!Displaces(s, cmds[0]) && NeverDisplaces(Apply(s, cmds[0]), cmds[1..]))
  }

  // ----- steps that publish nothing -------------------------------------------------------

  /** No port gains its first receiver, and one that still has a receiver keeps
      its entry. */
  ghost predicate Sheds(s: State, s': State) {
    && (forall o :: LivePort(s', o) ==> LivePort(s, o))
    && (forall i, o :: 0 <= i < PORT_TABLE_MAX && s.ports[i] == Some(o) && LivePort(s', o) ==> s'.ports[i] == Some(o))
  }

  lemma ShedsTrans(s: State, s1: State, s2: State)
    requires Sheds(s, s1) && Sheds(s1, s2)
    ensures Sheds(s, s2)
  {
  }

  lemma ShedsKeeps(s: State, s': State)
    requires AllListed(s) && Sheds(s, s')
    ensures AllListed(s')
  {
    forall o | LivePort(s', o) ensures Listed(s', o) {
      assert Listed(s, o);
    }
  }

  /** An edit that adds no receiver and leaves the table alone. */
  lemma ShedsEdit(s: State, s': State)
    requires s'.ports == s.ports && forall x :: LivePort(s', x) ==> LivePort(s, x)
    ensures Sheds(s, s')
  {
  }

  lemma ShedsPut(s: State, p: Pid, i: nat, o: ObjId, rights: Rights)
    requires p in s.tables && i < NPROC_HANDLES && o in s.objs
    requires s.objs[o].typ == Port && Read in rights ==> s.objs[o].readers > 0
    ensures Sheds(s, Put(s, p, i, o, rights))
  {
    PutShape(s, p, i, o, rights);
    hide Put;
    ShedsEdit(s, Put(s, p, i, o, rights));
  }

  lemma ShedsInstall(s: State, p: Pid, o: ObjId, rights: Rights)
    requires o in s.objs && (s.objs[o].typ == Port && Read in rights ==> s.objs[o].readers > 0)
    ensures Sheds(s, Install(s, p, o, rights).0)
  {
    if p in s.tables && FirstFree(s.tables[p], 0) < NPROC_HANDLES {
      ShedsPut(s, p, FirstFree(s.tables[p], 0), o, rights);
    } else {
      ShedsEdit(s, s);
    }
  }

  lemma ShedsForget(s: State, o: ObjId, rights: Rights)
    requires o in s.objs
    ensures Sheds(s, Forget(s, o, rights))
  {
    ForgetShape(s, o, rights);
    hide Forget;
  }

  lemma ShedsAct(s: State, s1: State, p: Pid, a: Act)
    requires Sheds(s, s1)
    ensures Sheds(s, SetAct(s1, p, a))
  {
  }

  /** A handle with READ on a port counts as a receiver. */
  lemma HolderCounts(s: State, p: Pid, i: nat)
    requires Inv(s) && p in s.tables && i < NPROC_HANDLES && s.tables[p][i].Used?
    ensures var h := s.tables[p][i];
            h.obj in s.objs && (s.objs[h.obj].typ == Port && Read in h.rights ==> s.objs[h.obj].readers > 0)
  {
    NamedHasRef(s, p, i);
    assert Exact(s, s.tables[p][i].obj, Free);
    if Read in s.tables[p][i].rights {
      SlotCounts(s, p, i, {Read});
    }
  }

  lemma CopySheds(s: State, p: Pid, h: nat, q: Pid, rights: Rights)
    requires Inv(s) && p in s.tables && h < NPROC_HANDLES && s.tables[p][h].Used? && rights <= s.tables[p][h].rights
    ensures Sheds(s, Install(s, q, s.tables[p][h].obj, rights).0)
  {
    HolderCounts(s, p, h);
    ShedsInstall(s, q, s.tables[p][h].obj, rights);
  }

  lemma CreatingSheds(s: State, p: Pid, q: Pid, rights: Rights)
    requires Inv(s) && ActOf(s, p).Creating?
    ensures s.acts[p].obj in s.objs && s.objs[s.acts[p].obj].typ != Port
    ensures Sheds(s, Install(s, q, s.acts[p].obj, rights).0)
  {
    assert ActOk(s, p, s.acts[p]);
    ShedsInstall(s, q, s.acts[p].obj, rights);
  }

  lemma PipeSheds(s: State, p: Pid)
    requires Inv(s) && ActOf(s, p).Creating?
    ensures Sheds(s, InstallPipe(s, p).0)
  {
    var o := s.acts[p].obj;
    CreatingSheds(s, p, p, PIPE_READ_END);
    InstallCore(s, p, o, PIPE_READ_END);
    hide Inv, Sheds, Install;
    var (s1, rfd) := Install(s, p, o, PIPE_READ_END);
    ShedsAct(s, s1, p, Freeing(o));
    if rfd >= 0 {
      ShedsInstall(s1, p, o, PIPE_WRITE_END);
      var s2 := Install(s1, p, o, PIPE_WRITE_END).0;
      ShedsTrans(s, s1, s2);
      ShedsAct(s, s2, p, Idle);
    }
  }

  lemma DropSheds(s: State, p: Pid, i: nat)
    requires Inv(s) && p in s.tables && i < NPROC_HANDLES && s.tables[p][i].Used?
    ensures s.tables[p][i].obj in s.objs && Sheds(s, Drop(s, p, i))
  {
    NamedLive(s, p, i);
    hide Inv;
    var s1 := SetSlot(s, p, i, Free);
    ShedsEdit(s, s1);
    ShedsForget(s1, s.tables[p][i].obj, s.tables[p][i].rights);
    ShedsTrans(s, s1, Drop(s, p, i));
  }

  lemma SettleSheds(s: State, s1: State, p: Pid, o: ObjId)
    requires Sheds(s, s1)
    ensures Sheds(s, Settle(s1, p, o))
  {
    ShedsAct(s, s1, p, Freeing(o));
  }

  lemma RedirectSheds(s: State, p: Pid, owner: Pid, child: Pid, slot: int, fd: int)
    requires Inv(s)
    ensures Sheds(s, Redirect(s, p, owner, child, slot, fd).0)
  {
    ShedsEdit(s, s);
    if 0 <= slot < NPROC_HANDLES && 0 <= fd < NPROC_HANDLES && owner in s.tables {
      var s0 := EnsureTable(s, child);
      ProcessSteps.EnsureTableInv(s, child);
      ShedsEdit(s, s0);
      var src, prev := s0.tables[owner][fd], s0.tables[child][slot];
      if src.Used? {
        HolderCounts(s0, owner, fd);
        ShedsPut(s0, child, slot, src.obj, src.rights);
        PutShape(s0, child, slot, src.obj, src.rights);
        var s1 := Put(s0, child, slot, src.obj, src.rights);
        ShedsTrans(s, s0, s1);
        if prev.Used? {
          NamedLive(s0, child, slot);
          hide Inv, Put, Forget, Sheds;
          ShedsForget(s1, prev.obj, prev.rights);
          ShedsTrans(s, s1, Forget(s1, prev.obj, prev.rights));
          SettleSheds(s, Forget(s1, prev.obj, prev.rights), p, prev.obj);
        }
      }
    }
  }

  lemma DestroySlotSheds(s: State, p: Pid, i: nat)
    requires Inv(s) && p in s.tables && i < NPROC_HANDLES && s.tables[p][i].Used?
    ensures Sheds(s, ProcessSteps.DestroySlot(s, p, i))
  {
    DropSheds(s, p, i);
    var s1 := Drop(s, p, i);
    var s2 := FreeObj(s1, s.tables[p][i].obj);
    ShedsEdit(s1, s2);
    ShedsTrans(s, s1, s2);
  }

  lemma {:induction false} DestroySheds(s: State, p: Pid, i: nat)
    requires Inv(s) && p in s.tables && i <= NPROC_HANDLES
    ensures Sheds(s, DestroyFrom(s, p, i))
    decreases NPROC_HANDLES - i
  {
    hide Inv, Sheds, DestroyFrom, ProcessSteps.DestroySlot;
    if i == NPROC_HANDLES {
      ProcessSteps.DestroyEnd(s, p);
      ShedsEdit(s, s);
      return;
    }
    ProcessSteps.DestroyUnfold(s, p, i);
    if s.tables[p][i].Free? {
      DestroySheds(s, p, i + 1);
    } else {
      var s1 := ProcessSteps.DestroySlot(s, p, i);
      ProcessSteps.DestroySlotInv(s, p, i);
      DestroySlotSheds(s, p, i);
      DestroySheds(s1, p, i + 1);
      ShedsTrans(s, s1, DestroyFrom(s, p, i));
    }
  }

  lemma {:induction false} InstallAllSheds(s: State, p: Pid, rcv: Pid, fds: seq<int>, done: seq<nat>)
    requires Inv(s) && rcv in s.tables && |done| <= |fds|
    ensures Sheds(s, InstallAll(s, p, rcv, fds, done).0)
    decreases |fds| - |done|
  {
    hide Inv, Sheds, Install;
    ShedsEdit(s, s);
    if |done| < |fds| && ValidHandle(s, p, fds[|done|]) {
      var src := s.tables[p][fds[|done|]];
      CopySheds(s, p, fds[|done|], rcv, src.rights);
      PortSend.CopyOne(s, p, fds[|done|], rcv);
      var (s1, h) := Install(s, rcv, src.obj, src.rights);
      if h >= 0 {
        InstallAllSheds(s1, p, rcv, fds, done + [h]);
        ShedsTrans(s, s1, InstallAll(s1, p, rcv, fds, done + [h]).0);
      }
    }
  }

  lemma SendSheds(s: State, p: Pid, alive: bool, m: Message, fds: seq<int>)
    requires Inv(s) && ActOf(s, p).Pinned? && p in s.tables
    ensures Sheds(s, SendCaps(s, p, alive, m, fds).state)
  {
    hide Inv, InstallAll, SendCaps, Sheds, Enqueue;
    ShedsEdit(s, s);
    if SendCaps(s, p, alive, m, fds).ret < 0 {
      PortSend.SendFailsClean(s, p, alive, m, fds);
    } else {
      PortSend.SuccessPath(s, p, alive, m, fds);
      var o := s.acts[p].obj;
      var (s1, slots, err) := InstallAll(s, p, Obj(s, o).owner, fds, []);
      InstallAllSheds(s, p, Obj(s, o).owner, fds, []);
      PinLive(s, p);
      PortSend.StartLending(s, p, Obj(s, o).owner, fds);
      PortSend.LendAll(s, s, p, Obj(s, o).owner, fds, []);
      assert PortSend.Frame(s, s1);
      QueueSheds(s1, o, Stamp(m, p, slots));
      ShedsTrans(s, s1, Enqueue(s1, o, Stamp(m, p, slots)));
    }
  }

  lemma QueueSheds(s: State, o: ObjId, m: Message)
    requires o in s.objs
    ensures Sheds(s, Enqueue(s, o, m))
  {
    ShedsEdit(s, Enqueue(s, o, m));
  }

  lemma AllocSheds(s: State, o: ObjId, k: KObject, p: Pid, a: Act)
    requires o !in s.objs && k.readers == 0
    ensures Sheds(s, SetAct(AllocObj(s, o, k), p, a))
  {
    ShedsEdit(s, SetAct(AllocObj(s, o, k), p, a));
  }

  lemma LookupSheds(s: State, p: Pid, path: string, rights: Rights)
    requires Inv(s)
    ensures Sheds(s, PortLookup(s, p, path, rights).0)
  {
    ShedsEdit(s, s);
    var want := rights * ALL;
    var found := PortFind(s, path, 0);
    if Read !in want && found < PORT_TABLE_MAX {
      PortSteps.PublishedLive(s, found);
      ShedsInstall(s, p, s.ports[found].value, want - {Read});
    }
    ShedsAct(s, s, p, PortSlot(if FirstEmpty(s.ports, 0) < PORT_TABLE_MAX then FirstEmpty(s.ports, 0) else 0, path, want));
  }

  lemma AddRefSheds(s: State, o: ObjId, delta: int)
    requires o in s.objs
    ensures Sheds(s, AddRef(s, o, delta))
  {
    ShedsEdit(s, AddRef(s, o, delta));
  }

  lemma PinSheds(s: State, p: Pid, h: int, need: Rights)
    requires Inv(s)
    ensures Sheds(s, Pin(s, p, h, need).0)
  {
    hide Inv, Sheds;
    ShedsEdit(s, s);
    if ValidHandle(s, p, h) {
      var o := s.tables[p][h].obj;
      NamedLive(s, p, h);
      AddRefSheds(s, o, 1);
      ShedsAct(s, AddRef(s, o, 1), p, Pinned(o, need));
    }
  }

  lemma UnpinSheds(s: State, p: Pid)
    requires Inv(s) && ActOf(s, p).Pinned?
    ensures Sheds(s, Unpin(s, p))
  {
    hide Inv, Sheds;
    PinLive(s, p);
    var o := s.acts[p].obj;
    AddRefSheds(s, o, -1);
    ShedsAct(s, AddRef(s, o, -1), p, Idle);
    SettleSheds(s, SetAct(AddRef(s, o, -1), p, Idle), p, o);
  }

  lemma TrafficSheds(s: State, p: Pid, m: Message)
    requires Inv(s) && ActOf(s, p).Pinned?
    ensures Sheds(s, PortWrite(s, p, m).0) && Sheds(s, PortRead(s, p).0)
  {
    hide Inv;
    PinLive(s, p);
    ShedsEdit(s, s);
    QueueSheds(s, s.acts[p].obj, m.(from := p));
    ShedsEdit(s, PortRead(s, p).0);
  }

  lemma LocalSheds(s: State, p: Pid)
    requires Inv(s)
    ensures ActOf(s, p).Freeing? ==> Sheds(s, Release(s, p))
    ensures ActOf(s, p).Creating? ==> forall q :: q in s.tables ==> Sheds(s, InstallStdio(s, p, q))
  {
    if ActOf(s, p).Freeing? {
      ShedsEdit(s, Release(s, p));
    } else if ActOf(s, p).Creating? {
      OwnedHasNoRef(s, p);
      hide Inv;
      forall q | q in s.tables ensures Sheds(s, InstallStdio(s, p, q)) {
        ShedsEdit(s, InstallStdio(s, p, q));
      }
    }
  }

  /** Every step but a publication sheds. */
  lemma StepSheds(s: State, c: Cmd)
    requires Inv(s) && Enabled(s, c) && !c.CPortPublish?
    ensures Sheds(s, Apply(s, c))
  {
    hide Inv, Sheds, Install, Put, Forget, DestroyFrom, SendCaps, Redirect, PortLookup, InstallPipe, AllocObj,
      Pin, Unpin, Release, PortWrite, PortRead, InstallStdio;
    ShedsEdit(s, s);
    match c
    case CAlloc(p, o, t) => AllocSheds(s, o, NewObject(t, "", 0), p, Creating(o));
    case CInstallNew(p, r) =>
      CreatingSheds(s, p, p, r * ALL);
      var s1 := Install(s, p, s.acts[p].obj, r * ALL).0;
      ShedsAct(s, s1, p, Freeing(s.acts[p].obj));
      ShedsAct(s, s1, p, Idle);
    case CInstallPipe(p) => PipeSheds(s, p);
    case CDup(p, h, r) =>
      if ValidHandle(s, p, h) { CopySheds(s, p, h, p, r * ALL * s.tables[p][h].rights); }
    case CGrant(p, t, v, h, r) =>
      if ValidHandle(s, p, h) { CopySheds(s, p, h, t, r * ALL * s.tables[p][h].rights); }
    case CClose(p, h) =>
      if ValidHandle(s, p, h) {
        DropSheds(s, p, h);
        SettleSheds(s, Drop(s, p, h), p, s.tables[p][h].obj);
      }
    case CPortLookup(p, path, r) => LookupSheds(s, p, path, r);
    case CPortAlloc(p, o) =>
      var a := s.acts[p];
      AllocSheds(s, o, NewObject(Port, Truncate(a.path), p), p, PortReady(o, a.slot, a.path, a.want));
    case CSendCaps(p, alive, m, fds) => SendSheds(s, p, alive, m, fds);
    case CRedirect(p, owner, child, slot, h) => RedirectSheds(s, p, owner, child, slot, h);
    case CDestroy(p) =>
      if p in s.tables {
        DestroySheds(s, p, 0);
        ShedsEdit(DestroyFrom(s, p, 0), DestroyTable(s, p));
        ShedsTrans(s, DestroyFrom(s, p, 0), DestroyTable(s, p));
      }
    case CPin(p, h, r) => PinSheds(s, p, h, r);
    case CUnpin(p) => UnpinSheds(s, p);
    case CRelease(p) => LocalSheds(s, p);
    case CPortWrite(p, m) => TrafficSheds(s, p, m);
    case CPortRead(p) => TrafficSheds(s, p, Message(0, 0, 0, 0, []));
    case CStdio(p, child) => LocalSheds(s, p);
    case CEnsureTable(p) => ShedsEdit(s, EnsureTable(s, p));
  }

  // ----- publications ----------------------------------------------------------------------------

  /** What a publication does to live ports and entries. */
  lemma PublishShape(s: State, p: Pid)
    requires Inv(s) && ActOf(s, p).PortReady?
    ensures var a, s' := s.acts[p], PortPublish(s, p).0;
            && (forall x :: x != a.obj ==> (LivePort(s', x) <==> LivePort(s, x)))
            && (forall i :: 0 <= i < PORT_TABLE_MAX ==> s.ports[i] != Some(a.obj))
            && (if PortPublish(s, p).1 < 0 then s'.ports == s.ports && !LivePort(s', a.obj)
                else s'.ports == s.ports[a.slot := Some(a.obj)])
  {
    var a := s.acts[p];
    OwnedHasNoRef(s, p);
    NoRefNoName(s, a.obj);
    assert ActOk(s, p, a);
    InstallCore(s, p, a.obj, a.want);
    hide Inv, Install, PortFind;
  }

  lemma PublishKeeps(s: State, p: Pid)
    requires Inv(s) && AllListed(s) && Enabled(s, CPortPublish(p)) && !Displaces(s, CPortPublish(p))
    ensures AllListed(PortPublish(s, p).0)
  {
    hide Inv, PortPublish, LivePort, Listed;
    PublishShape(s, p);
    var a, s' := s.acts[p], PortPublish(s, p).0;
    forall x | LivePort(s', x) ensures Listed(s', x) {
      if PortPublish(s, p).1 >= 0 {
        EntryListed(s, s', a.slot, a.obj, x);
      } else {
        SameListed(s, s', x);
      }
    }
  }

  lemma EntryListed(s: State, s': State, slot: PortIndex, o: ObjId, x: ObjId)
    requires s'.ports == s.ports[slot := Some(o)] && s.ports[slot].None? && (x == o || Listed(s, x))
    ensures Listed(s', x)
  {
    if x == o {
      assert s'.ports[slot] == Some(x);
    } else {
      var i :| 0 <= i < PORT_TABLE_MAX && s.ports[i] == Some(x);
      assert s'.ports[i] == Some(x);
    }
  }

  lemma SameListed(s: State, s': State, x: ObjId)
    requires s'.ports == s.ports && Listed(s, x)
    ensures Listed(s', x)
  {
  }

  /** The receiver whose entry was overwritten is live and no longer listed. */
  lemma DisplacedIsUnlisted(s: State, p: Pid)
    requires Inv(s) && Enabled(s, CPortPublish(p)) && Displaces(s, CPortPublish(p))
    ensures !AllListed(PortPublish(s, p).0)
  {
    PublishShape(s, p);
    var a, s' := s.acts[p], PortPublish(s, p).0;
    var x := s.ports[a.slot].value;
    assert EntryOk(s, s.ports[a.slot]);
    assert LivePort(s, x) && x != a.obj;
    forall i | 0 <= i < PORT_TABLE_MAX ensures s'.ports[i] != Some(x) {
      assert i != a.slot ==> s.ports[i] != s.ports[a.slot];
    }
    assert LivePort(s', x) && !Listed(s', x);
  }

  lemma StepListed(s: State, c: Cmd)
    requires Inv(s) && AllListed(s) && Enabled(s, c)
    ensures AllListed(Apply(s, c)) <==> !Displaces(s, c)
  {
    hide Inv, AllListed;
    if !c.CPortPublish? {
      StepSheds(s, c);
      ShedsKeeps(s, Apply(s, c));
    } else if Displaces(s, c) {
      DisplacedIsUnlisted(s, c.p);
    } else {
      PublishKeeps(s, c.p);
    }
  }

  lemma {:induction false} ListedRun(s: State, cmds: seq<Cmd>)
    requires Inv(s) && AllListed(s) && Runs(s, cmds)
    ensures AlwaysListed(s, cmds) <==> NeverDisplaces(s, cmds)
    decreases |cmds|
  {
    hide Inv, AllListed, Apply, Enabled, Displaces;
    if cmds != [] {
      StepListed(s, cmds[0]);
      ApplyInv(s, cmds[0]);
      if !Displaces(s, cmds[0]) {
        ListedRun(Apply(s, cmds[0]), cmds[1..]);
      }
    }
  }

  /** In every state of a run each port that has a receiver is in the table, if
      and only if no publication of the run that succeeds finds the slot it had
      chosen taken. */
  lemma AlwaysListedIff(cmds: seq<Cmd>)
    requires Runs(Boot(), cmds)
    ensures AlwaysListed(Boot(), cmds) <==> NeverDisplaces(Boot(), cmds)
  {
    BootInv();
    assert AllListed(Boot());
    ListedRun(Boot(), cmds);
  }
}
