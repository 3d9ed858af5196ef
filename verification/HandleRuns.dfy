/** Runs of the object manager: any interleaving of critical sections of any
    processes, and the invariant along them. */
module HandleRuns {
  import opened Basics
  import opened HandleSpec
  import opened HandleInvariant
  import opened HandleSteps
  import PortSteps
  import ProcessSteps
  import PortSend

  /** One critical section (or unlocked allocation) and the process running it. */
  datatype Cmd =
    | CEnsureTable(p: Pid)
    | CAlloc(p: Pid, o: ObjId, typ: ObjType)
    | CInstallNew(p: Pid, rights: Rights)
    | CInstallPipe(p: Pid)
    | CDup(p: Pid, h: int, rights: Rights)
    | CClose(p: Pid, h: int)
    | CGrant(p: Pid, target: Pid, v: Verdict, h: int, rights: Rights)
    | CPin(p: Pid, h: int, rights: Rights)
    | CUnpin(p: Pid)
    | CRelease(p: Pid)
    | CPortLookup(p: Pid, path: string, rights: Rights)
    | CPortAlloc(p: Pid, o: ObjId)
    | CPortPublish(p: Pid)
    | CPortWrite(p: Pid, m: Message)
    | CPortRead(p: Pid)
    | CSendCaps(p: Pid, alive: bool, m: Message, fds: seq<int>)
    | CStdio(p: Pid, child: Pid)
    | CRedirect(p: Pid, owner: Pid, child: Pid, slot: int, h: int)
    | CDestroy(p: Pid)

  /** Which point of its system call the process must be at.  An allocation may
      reuse any address that is not allocated. */
  predicate Enabled(s: State, c: Cmd) {
    var a := ActOf(s, c.p);
    match c
    case CEnsureTable(_) => true
    case CAlloc(_, o, t) => a.Idle? && o !in s.objs && t != Port
    case CInstallNew(_, _) => a.Creating? && !Obj(s, a.obj).typ.Pipe?
    case CInstallPipe(_) => a.Creating? && Obj(s, a.obj).typ.Pipe?
    case CPortAlloc(_, o) => a.PortSlot? && o !in s.objs
    case CPortPublish(_) => a.PortReady?
    case CUnpin(_) => a.Pinned?
    case CRelease(_) => a.Freeing?
    case CPortWrite(_, _) => a.Pinned? && Write in a.need
    case CPortRead(_) => a.Pinned? && Read in a.need
    case CSendCaps(p, _, _, _) => a.Pinned? && Write in a.need && p in s.tables
    case CStdio(_, child) => a.Creating? && Obj(s, a.obj).typ.Console? && child in s.tables
    case _ => a.Idle?
  }

  function Apply(s: State, c: Cmd): State
    requires Enabled(s, c)
  {
    match c
    case CEnsureTable(p) => EnsureTable(s, p)
    case CAlloc(p, o, t) => SetAct(AllocObj(s, o, NewObject(t, "", 0)), p, Creating(o))
    case CInstallNew(p, r) => InstallNew(s, p, r).0
    case CInstallPipe(p) => InstallPipe(s, p).0
    case CDup(p, h, r) => Dup(s, p, h, r).0
    case CClose(p, h) => Close(s, p, h).0
    case CGrant(p, t, v, h, r) => Grant(s, p, t, v, h, r).0
    case CPin(p, h, r) => Pin(s, p, h, r).0
    case CUnpin(p) => Unpin(s, p)
    case CRelease(p) => Release(s, p)
    case CPortLookup(p, path, r) => PortLookup(s, p, path, r).0
    case CPortAlloc(p, o) => PortAlloc(s, p, o)
    case CPortPublish(p) => PortPublish(s, p).0
    case CPortWrite(p, m) => PortWrite(s, p, m).0
    case CPortRead(p) => PortRead(s, p).0
    case CSendCaps(p, alive, m, fds) => SendCaps(s, p, alive, m, fds).state
    case CStdio(p, child) => InstallStdio(s, p, child)
    case CRedirect(p, owner, child, slot, h) => Redirect(s, p, owner, child, slot, h).0
    case CDestroy(p) => DestroyTable(s, p)
  }

  lemma ApplyInv(s: State, c: Cmd)
    requires Inv(s) && Enabled(s, c)
    ensures Inv(Apply(s, c))
  {
    hide Inv;
    match c
    case CEnsureTable(p) => ProcessSteps.EnsureTableInv(s, p);
    case CAlloc(p, o, t) => AllocInv(s, p, o, NewObject(t, "", 0), Creating(o));
    case CInstallNew(p, r) => InstallNewInv(s, p, r);
    case CInstallPipe(p) => InstallPipeInv(s, p);
    case CDup(p, h, r) => DupInv(s, p, h, r);
    case CClose(p, h) => CloseInv(s, p, h);
    case CGrant(p, t, v, h, r) => GrantInv(s, p, t, v, h, r);
    case CPin(p, h, r) => PinInv(s, p, h, r);
    case CUnpin(p) => UnpinInv(s, p);
    case CRelease(p) => ReleaseInv(s, p);
    case CPortLookup(p, path, r) => PortSteps.PortLookupInv(s, p, path, r);
    case CPortAlloc(p, o) => PortSteps.PortAllocInv(s, p, o);
    case CPortPublish(p) => PortSteps.PortPublishInv(s, p);
    case CPortWrite(p, m) => PortSteps.PortWriteInv(s, p, m);
    case CPortRead(p) => PortSteps.PortReadInv(s, p);
    case CSendCaps(p, alive, m, fds) => PortSend.SendCapsInv(s, p, alive, m, fds);
    case CStdio(p, child) => ProcessSteps.InstallStdioInv(s, p, child);
    case CRedirect(p, owner, child, slot, h) => ProcessSteps.RedirectInv(s, p, owner, child, slot, h);
    case CDestroy(p) => ProcessSteps.DestroyTableInv(s, p);
  }

  // ----- runs ---------------------------------------------------------------------------

  function Boot(): State {
    State(map[], map[], seq(PORT_TABLE_MAX, i => None), map[], map[], [])
  }

  predicate Runs(s: State, cmds: seq<Cmd>)
    decreases |cmds|
  {
    cmds == [] || (Enabled(s, cmds[0]) && Runs(Apply(s, cmds[0]), cmds[1..]))
  }

  function After(s: State, cmds: seq<Cmd>): State
    requires Runs(s, cmds)
    decreases |cmds|
  {
    if cmds == [] then s else After(Apply(s, cmds[0]), cmds[1..])
  }

  lemma {:induction false} RunsConcat(s: State, c1: seq<Cmd>, c2: seq<Cmd>)
    requires Runs(s, c1) && Runs(After(s, c1), c2)
    ensures Runs(s, c1 + c2) && After(s, c1 + c2) == After(After(s, c1), c2)
    decreases |c1|
  {
    hide Enabled, Apply;
    if c1 == [] {
      assert c1 + c2 == c2;
    } else {
      RunsConcat(Apply(s, c1[0]), c1[1..], c2);
      assert (c1 + c2)[1..] == c1[1..] + c2;
    }
  }

  lemma Extend(s: State, cmds: seq<Cmd>, c: Cmd)
    requires Runs(s, cmds) && Enabled(After(s, cmds), c)
    ensures Runs(s, cmds + [c]) && After(s, cmds + [c]) == Apply(After(s, cmds), c)
  {
    OneStep(After(s, cmds), c);
    RunsConcat(s, cmds, [c]);
  }

  lemma OneStep(s: State, c: Cmd)
    requires Enabled(s, c)
    ensures Runs(s, [c]) && After(s, [c]) == Apply(s, c)
  {
    hide Apply, Enabled;
    assert [c][1..] == [] && Runs(Apply(s, c), []) && After(Apply(s, c), []) == Apply(s, c);
  }

  /** The state some commands lead to. */
  ghost predicate Reached(s: State, cmds: seq<Cmd>) {
    Runs(Boot(), cmds) && After(Boot(), cmds) == s
  }

  lemma Go(s: State, cmds: seq<Cmd>, c: Cmd) returns (s': State, cmds': seq<Cmd>)
    requires Reached(s, cmds) && Enabled(s, c)
    ensures s' == Apply(s, c) && Reached(s', cmds')
  {
    Extend(Boot(), cmds, c);
    s', cmds' := Apply(s, c), cmds + [c];
  }

  lemma BootInv()
    ensures Inv(Boot())
  {
  }

  lemma {:induction false} RunInv(s: State, cmds: seq<Cmd>)
    requires Inv(s) && Runs(s, cmds)
    ensures Inv(After(s, cmds))
    decreases |cmds|
  {
    hide Inv, Enabled, Apply;
    if cmds != [] {
      ApplyInv(s, cmds[0]);
      RunInv(Apply(s, cmds[0]), cmds[1..]);
    }
  }

  /** In every reachable state each count is the number of slots and pins that
      refer to the object plus the handles to it that were overwritten, nothing
      dangles, every unreferenced object is in the hands of exactly one process,
      and what the port table publishes is a live port with a receiver. */
  lemma EveryRunIsSafe(cmds: seq<Cmd>)
    requires Runs(Boot(), cmds)
    ensures var s := After(Boot(), cmds);
            && (forall o :: o in s.objs ==>
                  var k := s.objs[o];
                  && k.refcount == |Holders(s.tables, o, {})| + |Pinners(s.acts, o)| + Lost(s.lost, o, {})
                  && |Owners(s.acts, o)| == One(k.refcount == 0)
                  && (HasEndpoints(k.typ) ==> k.readers == |Holders(s.tables, o, {Read})| + Lost(s.lost, o, {Read})
                                              && k.writers == |Holders(s.tables, o, {Write})| + Lost(s.lost, o, {Write})))
            && (forall p, h :: ValidHandle(s, p, h) ==> s.tables[p][h].obj in s.objs && Create !in s.tables[p][h].rights)
            && (forall p :: p in s.acts && (s.acts[p].Pinned? || IsLocal(s.acts[p])) ==> s.acts[p].obj in s.objs)
            && (forall i :: 0 <= i < PORT_TABLE_MAX && s.ports[i].Some? ==>
                  var o := s.ports[i].value;
                  o in s.objs && s.objs[o].typ == Port && s.objs[o].readers >= 1 && s.objs[o].refcount >= 1)
            && (forall t :: LiveCount(s, t) == |OfType(s.objs, t)|)
  {
    BootInv();
    RunInv(Boot(), cmds);
    Consequences(After(Boot(), cmds));
  }

  lemma Consequences(s: State)
    requires Inv(s)
    ensures forall o :: o in s.objs ==>
              var k := s.objs[o];
              && k.refcount == |Holders(s.tables, o, {})| + |Pinners(s.acts, o)| + Lost(s.lost, o, {})
              && |Owners(s.acts, o)| == One(k.refcount == 0)
              && (HasEndpoints(k.typ) ==> k.readers == |Holders(s.tables, o, {Read})| + Lost(s.lost, o, {Read})
                                          && k.writers == |Holders(s.tables, o, {Write})| + Lost(s.lost, o, {Write}))
    ensures forall p, h :: ValidHandle(s, p, h) ==> s.tables[p][h].obj in s.objs && Create !in s.tables[p][h].rights
    ensures forall p :: p in s.acts && (s.acts[p].Pinned? || IsLocal(s.acts[p])) ==> s.acts[p].obj in s.objs
    ensures forall i :: 0 <= i < PORT_TABLE_MAX && s.ports[i].Some? ==>
              var o := s.ports[i].value;
              o in s.objs && s.objs[o].typ == Port && s.objs[o].readers >= 1 && s.objs[o].refcount >= 1
    ensures forall t :: LiveCount(s, t) == |OfType(s.objs, t)|
  {
    forall o | o in s.objs ensures Exact(s, o, Free) && Owned(s, o) {}
    forall p, h | ValidHandle(s, p, h) ensures s.tables[p][h].obj in s.objs && Create !in s.tables[p][h].rights {
      assert SlotOk(s, s.tables[p][h]);
    }
    forall p | p in s.acts && (s.acts[p].Pinned? || IsLocal(s.acts[p])) ensures s.acts[p].obj in s.objs {
      assert ActOk(s, p, s.acts[p]);
    }
    forall i | 0 <= i < PORT_TABLE_MAX && s.ports[i].Some?
      ensures var o := s.ports[i].value;
              o in s.objs && s.objs[o].typ == Port && s.objs[o].readers >= 1 && s.objs[o].refcount >= 1
    {
      PortSteps.PublishedHasRef(s, i);
    }
  }
}
