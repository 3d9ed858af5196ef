/** What no escalation means for endpoint counts and pipe ends, and when the
    published port names are unique. */
module HandleTheorems {
  import opened Basics
  import opened HandleSpec
  import opened HandleInvariant
  import opened HandleSteps
  import opened HandleRuns
  import opened HandleRights
  import opened HandleLosses
  import PortSteps
  import PortSend

  // ----- endpoints that are gone stay gone ----------------------------------------------

  lemma {:induction false} KindKept(s: State, cmds: seq<Cmd>, o: ObjId)
    requires Inv(s) && Runs(s, cmds) && Throughout(s, cmds, o) && !Fresh(s, o)
    ensures o in After(s, cmds).objs && After(s, cmds).objs[o].typ == s.objs[o].typ
    decreases |cmds|
  {
    if cmds != [] {
      Link(s, cmds[0], o);
      ApplyInv(s, cmds[0]);
      KindKept(Apply(s, cmds[0]), cmds[1..], o);
    }
  }

  /** A holder of `right` at the end of a run descends from one at its start. */
  lemma RightDescends(s: State, cmds: seq<Cmd>, o: ObjId, right: Right, q: Pid, j: int)
    requires Inv(s) && Runs(s, cmds) && Throughout(s, cmds, o) && !Fresh(s, o)
    requires s.objs[o].typ == Port ==> right == Read
    requires (q, j) in Holders(After(s, cmds).tables, o, {right})
    ensures Holders(s.tables, o, {right}) != {}
  {
    var slot := After(s, cmds).tables[q][j];
    NoEscalation(s, cmds, o, q, j);
    var p, i :| p in s.tables && 0 <= i < NPROC_HANDLES && Holds(s.tables[p][i], o, slot.rights);
    assert (p, i) in Holders(s.tables, o, {right});
  }

  /** If nobody holds `right` on o at the start of a run, nobody does at its end. */
  lemma RightStaysGone(s: State, cmds: seq<Cmd>, o: ObjId, right: Right)
    requires Inv(s) && Runs(s, cmds) && Throughout(s, cmds, o) && !Fresh(s, o)
    requires s.objs[o].typ == Port ==> right == Read
    requires Holders(s.tables, o, {right}) == {}
    ensures Holders(After(s, cmds).tables, o, {right}) == {}
  {
    var hs := Holders(After(s, cmds).tables, o, {right});
    if hs != {} {
      var e :| e in hs;
      RightDescends(s, cmds, o, right, e.0, e.1);
    }
  }

  /** Nothing counts as an end of o with `right`, neither a slot nor a lost handle. */
  ghost predicate NoEnds(s: State, o: ObjId, right: Right) {
    Holders(s.tables, o, {right}) == {} && Lost(s.lost, o, {right}) == 0
  }

  lemma NoEndsStep(s: State, c: Cmd, o: ObjId, right: Right)
    requires Inv(s) && Enabled(s, c) && o in s.objs && o in Apply(s, c).objs && !Fresh(s, o)
    requires s.objs[o].typ == Port ==> right == Read
    requires NoEnds(s, o, right)
    ensures NoEnds(Apply(s, c), o, right)
  {
    hide Apply, Enabled, Inv, Runs, After, Throughout, Fresh;
    OneStep(s, c);
    Stays(s, c, o);
    RightStaysGone(s, [c], o, right);
    LostStep(s, c);
    if c.CStdio? && c.child in s.tables {
      var t := s.tables[c.child];
      NoneLost(s, c.child, 0, o, right);
      NoneLost(s, c.child, 1, o, right);
      NoneLost(s, c.child, 2, o, right);
      LostMore(s.lost, t[0], o, {right});
      LostMore(s.lost + Displaced(t[0]), t[1], o, {right});
      LostMore(s.lost + Displaced(t[0]) + Displaced(t[1]), t[2], o, {right});
      assert s.lost + LostBy(s, c) == s.lost + Displaced(t[0]) + Displaced(t[1]) + Displaced(t[2]);
    } else {
      assert s.lost + [] == s.lost;
    }
  }

  lemma Stays(s: State, c: Cmd, o: ObjId)
    requires Enabled(s, c) && Runs(s, [c]) && o in s.objs && o in Apply(s, c).objs
    ensures Throughout(s, [c], o)
  {
    hide Apply, Enabled;
    assert [c][1..] == [] && Throughout(Apply(s, c), [], o);
  }

  lemma NoneLost(s: State, p: Pid, i: int, o: ObjId, right: Right)
    requires p in s.tables && 0 <= i < NPROC_HANDLES && Holders(s.tables, o, {right}) == {}
    ensures !Holds(s.tables[p][i], o, {right})
  {
    assert Holds(s.tables[p][i], o, {right}) ==> (p, i) in Holders(s.tables, o, {right});
  }

  lemma {:induction false} NoEndsRun(s: State, cmds: seq<Cmd>, o: ObjId, right: Right)
    requires Inv(s) && Runs(s, cmds) && Throughout(s, cmds, o) && !Fresh(s, o)
    requires s.objs[o].typ == Port ==> right == Read
    requires NoEnds(s, o, right)
    ensures NoEnds(After(s, cmds), o, right)
    decreases |cmds|
  {
    hide Inv, NoEnds, Apply, Enabled;
    if cmds != [] {
      Link(s, cmds[0], o);
      ApplyInv(s, cmds[0]);
      NoEndsStep(s, cmds[0], o, right);
      NoEndsRun(Apply(s, cmds[0]), cmds[1..], o, right);
    }
  }

  /** Once created, a pipe or port without readers never gets one again, and a
      pipe without writers never gets one again. */
  lemma EndpointsStayZero(s: State, cmds: seq<Cmd>, o: ObjId)
    requires Inv(s) && Runs(s, cmds) && Throughout(s, cmds, o) && !Fresh(s, o) && HasEndpoints(s.objs[o].typ)
    ensures o in After(s, cmds).objs
    ensures s.objs[o].readers == 0 ==> After(s, cmds).objs[o].readers == 0
    ensures s.objs[o].typ == Pipe && s.objs[o].writers == 0 ==> After(s, cmds).objs[o].writers == 0
  {
    KindKept(s, cmds, o);
    RunInv(s, cmds);
    Consequences(s);
    Consequences(After(s, cmds));
    hide Inv, Runs, After, Throughout;
    if s.objs[o].readers == 0 {
      NoEndsRun(s, cmds, o, Read);
    }
    if s.objs[o].typ == Pipe && s.objs[o].writers == 0 {
      NoEndsRun(s, cmds, o, Write);
    }
  }

  // ----- port names ------------------------------------------------------------------------

  ghost predicate NamesUnique(s: State) {
    forall i, j :: 0 <= i < j < PORT_TABLE_MAX && s.ports[i].Some? && s.ports[j].Some?
                   ==> Obj(s, s.ports[i].value).name != Obj(s, s.ports[j].value).name
  }

  predicate ShortAct(a: Act) {
    a.PortSlot? || a.PortReady? ==> |a.path| < PORT_NAME_MAX
  }

  predicate ShortCmd(c: Cmd) {
    c.CPortLookup? ==> |c.path| < PORT_NAME_MAX
  }

  ghost predicate NamesOk(s: State) {
    NamesUnique(s) && ShortActs(s.acts)
  }

  lemma InstallActs(s: State, p: Pid, o: ObjId, r: Rights)
    ensures Install(s, p, o, r).0.acts == s.acts
  {
  }

  lemma PutActs(s: State, p: Pid, i: nat, o: ObjId, r: Rights)
    requires p in s.tables && i < NPROC_HANDLES
    ensures Put(s, p, i, o, r).acts == s.acts
  {
  }

  ghost predicate ShortActs(acts: map<Pid, Act>) {
    forall p :: p in acts ==> ShortAct(acts[p])
  }

  /** Paths enter at PortLookup and travel with the process. */
  lemma ActsStep(s: State, c: Cmd)
    requires Inv(s) && Enabled(s, c) && ShortCmd(c) && ShortActs(s.acts)
    ensures ShortActs(Apply(s, c).acts)
  {
    hide Inv, Install, Put, Forget, PortFind, FirstEmpty, DestroyFrom, SendCaps, PortLookup, Redirect, Dup, Grant, Close;
    match c
    case CInstallNew(p, r) => InstallActs(s, p, s.acts[p].obj, r * ALL);
    case CInstallPipe(p) =>
      InstallActs(s, p, s.acts[p].obj, PIPE_READ_END);
      InstallActs(Install(s, p, s.acts[p].obj, PIPE_READ_END).0, p, s.acts[p].obj, PIPE_WRITE_END);
    case CDup(p, h, r) => CopyActs(s, p, p, Found, h, r);
    case CGrant(p, t, v, h, r) => CopyActs(s, p, t, v, h, r);
    case CClose(p, h) => CloseActs(s, p, h);
    case CPortLookup(p, path, r) => LookupActs(s, p, path, r);
    case CPortPublish(p) => InstallActs(s, p, s.acts[p].obj, s.acts[p].want);
    case CRedirect(p, owner, child, slot, h) => RedirectActs(s, p, owner, child, slot, h);
    case CSendCaps(p, alive, m, fds) => PortSend.SendCapsActs(s, p, alive, m, fds);
    case CDestroy(p) =>
      if p in s.tables {
        DestroyWithin(s, p, 0);
      }
    case _ =>
  }

  lemma CopyActs(s: State, p: Pid, t: Pid, v: Verdict, h: int, r: Rights)
    ensures Dup(s, p, h, r).0.acts == s.acts && Grant(s, p, t, v, h, r).0.acts == s.acts
  {
    hide Install;
    if ValidHandle(s, p, h) {
      InstallActs(s, p, s.tables[p][h].obj, r * ALL * s.tables[p][h].rights);
      InstallActs(s, t, s.tables[p][h].obj, r * ALL * s.tables[p][h].rights);
    }
  }

  lemma CloseActs(s: State, p: Pid, h: int)
    requires ShortActs(s.acts)
    ensures ShortActs(Close(s, p, h).0.acts)
  {
    hide Forget;
    if ValidHandle(s, p, h) {
      ForgetActs(SetSlot(s, p, h, Free), s.tables[p][h].obj, s.tables[p][h].rights);
    }
  }

  lemma LookupActs(s: State, p: Pid, path: string, r: Rights)
    requires ShortActs(s.acts) && |path| < PORT_NAME_MAX
    ensures ShortActs(PortLookup(s, p, path, r).0.acts)
  {
    hide Install;
    forall o ensures Install(s, p, o, r * ALL - {Read}).0.acts == s.acts {
      InstallActs(s, p, o, r * ALL - {Read});
    }
  }

  lemma RedirectActs(s: State, p: Pid, owner: Pid, child: Pid, slot: int, fd: int)
    requires ShortActs(s.acts)
    ensures ShortActs(Redirect(s, p, owner, child, slot, fd).0.acts)
  {
    hide Put, Forget;
    if 0 <= slot < NPROC_HANDLES && 0 <= fd < NPROC_HANDLES && owner in s.tables {
      var s0 := EnsureTable(s, child);
      var src, prev := s0.tables[owner][fd], s0.tables[child][slot];
      if src.Used? {
        PutActs(s0, child, slot, src.obj, src.rights);
        if prev.Used? {
          var s1 := Put(s0, child, slot, src.obj, src.rights);
          ForgetActs(s1, prev.obj, prev.rights);
        }
      }
    }
  }

  lemma ForgetActs(s: State, o: ObjId, r: Rights)
    ensures Forget(s, o, r).acts == s.acts
  {
  }

  lemma NamesStep(s: State, c: Cmd)
    requires Inv(s) && Enabled(s, c) && ShortCmd(c) && NamesOk(s)
    ensures NamesOk(Apply(s, c))
  {
    ActsStep(s, c);
    if c.CPortPublish? {
      PublishNames(s, c.p);
    } else {
      ShrinkNames(s, c);
    }
  }

  lemma ShrinkNames(s: State, c: Cmd)
    requires Inv(s) && Enabled(s, c) && !c.CPortPublish? && NamesUnique(s)
    ensures NamesUnique(Apply(s, c))
  {
    hide Enabled, Apply;
    ApplyEvolves(s, c);
    ApplyInv(s, c);
    var s' := Apply(s, c);
    forall i | 0 <= i < PORT_TABLE_MAX && s'.ports[i].Some?
      ensures s.ports[i] == s'.ports[i] && Obj(s', s'.ports[i].value).name == Obj(s, s.ports[i].value).name
    {
      assert EntryOk(s', s'.ports[i]) && EntryOk(s, s.ports[i]);
    }
  }

  lemma PublishNames(s: State, p: Pid)
    requires Inv(s) && ActOf(s, p).PortReady? && NamesUnique(s) && ShortAct(s.acts[p])
    ensures NamesUnique(PortPublish(s, p).0)
  {
    var a := s.acts[p];
    PublishFacts(s, p);
    hide Inv, Install, NamesUnique;
    if PortFind(s, a.path, 0) == PORT_TABLE_MAX {
      var s1 := Install(s, p, a.obj, a.want).0;
      EntryNames(s, s1, a.slot, a.obj);
      MoveNames(s1, p, Freeing(a.obj));
      MoveNames(s1.(ports := s1.ports[a.slot := Some(a.obj)]), p, Idle);
    } else {
      MoveNames(s, p, Freeing(a.obj));
    }
  }

  lemma MoveNames(s: State, p: Pid, a: Act)
    ensures NamesUnique(SetAct(s, p, a)) == NamesUnique(s)
  {
  }

  lemma PublishFacts(s: State, p: Pid)
    requires Inv(s) && ActOf(s, p).PortReady?
    ensures var a := s.acts[p];
            var s1 := Install(s, p, a.obj, a.want).0;
            && a.obj in s1.objs && s1.objs[a.obj].name == Truncate(a.path) && s1.ports == s.ports
            && (forall x :: x in s.objs ==> x in s1.objs && s1.objs[x].name == s.objs[x].name)
            && (forall i :: 0 <= i < PORT_TABLE_MAX && s.ports[i].Some? ==> s.ports[i].value in s.objs)
  {
    var a := s.acts[p];
    OwnedHasNoRef(s, p);
    assert ActOk(s, p, a);
    InstallCore(s, p, a.obj, a.want);
    forall i | 0 <= i < PORT_TABLE_MAX && s.ports[i].Some? ensures s.ports[i].value in s.objs {
      assert EntryOk(s, s.ports[i]);
    }
  }

  /** Publishing a name that no entry carries. */
  lemma EntryNames(s: State, s1: State, slot: PortIndex, o: ObjId)
    requires NamesUnique(s) && s1.ports == s.ports && o in s1.objs
    requires forall i :: 0 <= i < PORT_TABLE_MAX && s.ports[i].Some? ==> s.ports[i].value in s.objs
    requires forall x :: x in s.objs ==> x in s1.objs && s1.objs[x].name == s.objs[x].name
    requires forall i :: 0 <= i < PORT_TABLE_MAX ==> !Published(s, i, s1.objs[o].name)
    ensures NamesUnique(s1) && NamesUnique(s1.(ports := s.ports[slot := Some(o)]))
  {
    forall i | 0 <= i < PORT_TABLE_MAX && s.ports[i].Some?
      ensures Obj(s1, s.ports[i].value).name == Obj(s, s.ports[i].value).name != s1.objs[o].name
    {
      assert !Published(s, i, s1.objs[o].name);
    }
  }

  /** While every requested name has fewer than 32 characters, published names
      are pairwise different in every reachable state, in spite of the gap
      between the two critical sections of a publication. */
  lemma {:induction false} NamesStayUnique(s: State, cmds: seq<Cmd>)
    requires Inv(s) && NamesOk(s) && Runs(s, cmds) && forall c :: c in cmds ==> ShortCmd(c)
    ensures NamesOk(After(s, cmds))
    decreases |cmds|
  {
    hide Inv, NamesOk, Enabled, Apply;
    if cmds != [] {
      NamesStep(s, cmds[0]);
      ApplyInv(s, cmds[0]);
      NamesStayUnique(Apply(s, cmds[0]), cmds[1..]);
    }
  }
}
