/** Handles that are overwritten without being counted down.  The table of a new
    process is published before its three standard slots are set, so a grant can
    come in between; what it put there stays counted for good. */
module HandleLosses {
  import opened Basics
  import opened HandleSpec
  import opened HandleInvariant
  import opened HandleSteps
  import opened HandleRuns
  import ProcessSteps
  import PortSend

  // ----- what is lost, step by step --------------------------------------------------------

  /** The standard slots of the new process are still free. */
  predicate StandardFree(s: State, p: Pid) {
    p in s.tables ==> s.tables[p][0].Free? && s.tables[p][1].Free? && s.tables[p][2].Free?
  }

  predicate Undisturbed(s: State, c: Cmd) {
    c.CStdio? ==> StandardFree(s, c.child)
  }

  /** No process of the run finds its standard slots in use. */
  predicate AllUndisturbed(s: State, cmds: seq<Cmd>)
    requires Runs(s, cmds)
    decreases |cmds|
  {
    cmds == [] || (Undisturbed(s, cmds[0]) && AllUndisturbed(Apply(s, cmds[0]), cmds[1..]))
  }

  /** What one step loses. */
  function LostBy(s: State, c: Cmd): seq<Slot> {
    if c.CStdio? && c.child in s.tables then
      var t := s.tables[c.child];
      Displaced(t[0]) + Displaced(t[1]) + Displaced(t[2])
    else []
  }

  lemma LostKept()
    ensures forall s: State, p, o, r :: Install(s, p, o, r).0.lost == s.lost
    ensures forall s: State, o, r :: Forget(s, o, r).lost == s.lost
    ensures forall s: State, o, d :: AddRef(s, o, d).lost == s.lost
    ensures forall s: State, o, k :: AllocObj(s, o, k).lost == s.lost
    ensures forall s: State, o :: FreeObj(s, o).lost == s.lost
    ensures forall s: State, p, i: nat, o, r :: p in s.tables && i < NPROC_HANDLES ==> Put(s, p, i, o, r).lost == s.lost
  {
  }

  lemma SendLosesNothing(s: State, p: Pid, alive: bool, m: Message, fds: seq<int>)
    requires Inv(s) && ActOf(s, p).Pinned? && p in s.tables
    ensures SendCaps(s, p, alive, m, fds).state.lost == s.lost
  {
    hide Inv, SendCaps;
    if SendCaps(s, p, alive, m, fds).ret < 0 {
      PortSend.SendFailsClean(s, p, alive, m, fds);
    } else {
      PortSend.SendDelivers(s, p, alive, m, fds);
    }
  }

  lemma LostStep(s: State, c: Cmd)
    requires Inv(s) && Enabled(s, c)
    ensures Apply(s, c).lost == s.lost + LostBy(s, c)
    ensures LostBy(s, c) == [] <==> Undisturbed(s, c)
  {
    LostKept();
    hide Inv, DestroyTable, SendCaps, Install, Put, Forget, PortFind, FirstEmpty, AddRef, AllocObj, FreeObj, Redirect;
    match c
    case CSendCaps(p, alive, m, fds) => SendLosesNothing(s, p, alive, m, fds);
    case CDestroy(p) => ProcessSteps.DestroyTableInv(s, p);
    case CRedirect(p, owner, child, slot, h) => RedirectLosesNothing(s, p, owner, child, slot, h);
    case _ =>
  }

  lemma RedirectLosesNothing(s: State, p: Pid, owner: Pid, child: Pid, slot: int, fd: int)
    ensures Redirect(s, p, owner, child, slot, fd).0.lost == s.lost
  {
    LostKept();
    hide Put, Forget;
  }

  /** Along a run losses only add up, and there is none if and only if no new
      process was disturbed. */
  lemma {:induction false} LostRun(s: State, cmds: seq<Cmd>)
    requires Inv(s) && Runs(s, cmds)
    ensures s.lost <= After(s, cmds).lost
    ensures After(s, cmds).lost == s.lost <==> AllUndisturbed(s, cmds)
    decreases |cmds|
  {
    hide Inv, Enabled, Apply, Undisturbed, LostBy;
    if cmds != [] {
      LostStep(s, cmds[0]);
      ApplyInv(s, cmds[0]);
      LostRun(Apply(s, cmds[0]), cmds[1..]);
    }
  }

  // ----- exact counts --------------------------------------------------------------------------

  /** Every count is the number of slots and pins that refer to the object. */
  ghost predicate CountsExact(s: State) {
    forall o :: o in s.objs ==>
      var k := s.objs[o];
      && k.refcount == |Holders(s.tables, o, {})| + |Pinners(s.acts, o)|
      && (HasEndpoints(k.typ) ==> k.readers == |Holders(s.tables, o, {Read})| && k.writers == |Holders(s.tables, o, {Write})|)
  }

  lemma ExactIff(s: State)
    requires Inv(s)
    ensures CountsExact(s) <==> s.lost == []
  {
    Consequences(s);
    if s.lost == [] {
    } else {
      var o := s.lost[0].obj;
      assert o in s.objs && Holds(s.lost[0], o, {});
      LostIff(s.lost, o, {});
    }
  }

  /** The counts are exact at the end of a run if and only if no process of the
      run found its standard slots in use. */
  lemma CountsExactIff(cmds: seq<Cmd>)
    requires Runs(Boot(), cmds)
    ensures CountsExact(After(Boot(), cmds)) <==> AllUndisturbed(Boot(), cmds)
  {
    hide Inv, CountsExact, Runs, After;
    BootInv();
    RunInv(Boot(), cmds);
    LostRun(Boot(), cmds);
    ExactIff(After(Boot(), cmds));
  }

  /** For one step: setting up the standard slots keeps exact counts exact if and
      only if the three slots are free. */
  lemma StdioExactIff(s: State, q: Pid, p: Pid)
    requires Inv(s) && CountsExact(s) && ActOf(s, q).Creating? && p in s.tables
    requires Obj(s, s.acts[q].obj).typ == Console
    ensures CountsExact(InstallStdio(s, q, p)) <==> StandardFree(s, p)
  {
    hide Inv, CountsExact;
    ExactIff(s);
    ProcessSteps.InstallStdioInv(s, q, p);
    ExactIff(InstallStdio(s, q, p));
  }

  // ----- leaks -----------------------------------------------------------------------------------

  /** Nothing refers to anything any more. */
  ghost predicate Quiescent(s: State) {
    s.tables == map[] && forall p :: ActOf(s, p).Idle?
  }

  lemma Survivors(s: State, o: ObjId)
    requires Inv(s) && Quiescent(s)
    ensures o in s.objs <==> exists i :: 0 <= i < |s.lost| && Holds(s.lost[i], o, {})
  {
    if o in s.objs {
      assert Exact(s, o, Free) && Owned(s, o);
      assert Holders(s.tables, o, {}) == {};
      forall p | p in s.acts ensures s.acts[p] == Idle {
        assert ActOf(s, p).Idle?;
      }
      assert Pinners(s.acts, o) == {} && Owners(s.acts, o) == {};
      LostIff(s.lost, o, {});
    }
  }

  /** Once every table is destroyed and no system call is in flight: what is left
      are the objects that overwritten handles named; so no object is left, no
      name published and every live count zero if and only if no process of the
      run found its standard slots in use. */
  lemma NothingLeaksIff(cmds: seq<Cmd>)
    requires Runs(Boot(), cmds) && Quiescent(After(Boot(), cmds))
    ensures var s := After(Boot(), cmds);
            && (forall o :: o in s.objs <==> exists i :: 0 <= i < |s.lost| && Holds(s.lost[i], o, {}))
            && (s.objs == map[] <==> AllUndisturbed(Boot(), cmds))
            && (AllUndisturbed(Boot(), cmds) ==>
                  (forall i :: 0 <= i < PORT_TABLE_MAX ==> s.ports[i].None?) && forall t :: LiveCount(s, t) == 0)
  {
    var s := After(Boot(), cmds);
    BootInv();
    RunInv(Boot(), cmds);
    LostRun(Boot(), cmds);
    hide After, Runs, AllUndisturbed, Quiescent;
    forall o ensures o in s.objs <==> exists i :: 0 <= i < |s.lost| && Holds(s.lost[i], o, {}) {
      Survivors(s, o);
    }
    Empty(s);
  }

  lemma Empty(s: State)
    requires Inv(s) && forall o :: o in s.objs <==> exists i :: 0 <= i < |s.lost| && Holds(s.lost[i], o, {})
    ensures s.objs == map[] <==> s.lost == []
    ensures s.lost == [] ==> (forall i :: 0 <= i < PORT_TABLE_MAX ==> s.ports[i].None?) && forall t :: LiveCount(s, t) == 0
  {
    if s.lost != [] {
      assert s.lost[0].obj in s.objs;
    } else {
      forall i | 0 <= i < PORT_TABLE_MAX ensures s.ports[i].None? {
        assert EntryOk(s, s.ports[i]);
      }
      forall t ensures LiveCount(s, t) == 0 {
        assert OfType(s.objs, t) == {};
      }
    }
  }

  /** A lost handle keeps its object allocated, and its endpoint open, for ever:
      the other side of a pipe never sees end of file or a broken pipe. */
  lemma LossIsForever(s: State, cmds: seq<Cmd>, i: nat)
    requires Inv(s) && Runs(s, cmds) && i < |s.lost|
    ensures var s' := After(s, cmds);
            var h := s.lost[i];
            && h.obj in s'.objs && s'.objs[h.obj].refcount >= 1
            && (HasEndpoints(s'.objs[h.obj].typ) ==>
                  (Read in h.rights ==> s'.objs[h.obj].readers >= 1) && (Write in h.rights ==> s'.objs[h.obj].writers >= 1))
  {
    LostRun(s, cmds);
    RunInv(s, cmds);
    var s', h := After(s, cmds), s.lost[i];
    hide Runs, After;
    assert s'.lost[i] == h;
    Consequences(s');
    assert Holds(s'.lost[i], h.obj, {});
    LostIff(s'.lost, h.obj, {});
    if Read in h.rights {
      assert Holds(s'.lost[i], h.obj, {Read});
      LostIff(s'.lost, h.obj, {Read});
    }
    if Write in h.rights {
      assert Holds(s'.lost[i], h.obj, {Write});
      LostIff(s'.lost, h.obj, {Write});
    }
  }

  // ----- it happens ---------------------------------------------------------------------------------

  /** Process 1 makes a pipe. */
  lemma MakePipe() returns (s: State, cmds: seq<Cmd>)
    ensures Reached(s, cmds)
    ensures s.tables.Keys == {1} && s.tables[1][1] == Used(0, PIPE_WRITE_END) && s.acts == map[1 := Idle]
    ensures s.lost == [] && s.objs.Keys == {0}
  {
    assert Reached(Boot(), []);
    hide Reached;
    var s1, c1 := Go(Boot(), [], CEnsureTable(1));
    var s2, c2 := Go(s1, c1, CAlloc(1, 0, Pipe));
    assert s2.tables == map[1 := EmptyTable()];
    PipeIn(s2);
    s, cmds := Go(s2, c2, CInstallPipe(1));
  }

  lemma PipeIn(s: State)
    requires s.tables == map[1 := EmptyTable()] && s.acts == map[1 := Creating(0)]
    requires s.objs == map[0 := NewObject(Pipe, "", 0)] && s.lost == []
    ensures Enabled(s, CInstallPipe(1))
    ensures var s' := Apply(s, CInstallPipe(1));
            && s'.tables.Keys == {1} && s'.tables[1][1] == Used(0, PIPE_WRITE_END) && s'.acts == map[1 := Idle]
            && s'.lost == [] && s'.objs.Keys == {0}
  {
    assert EmptyTable()[0].Free? && FirstFree(s.tables[1], 0) == 0;
    PutShape(s, 1, 0, 0, PIPE_READ_END);
    var s1 := Put(s, 1, 0, 0, PIPE_READ_END);
    assert s1.tables[1] == EmptyTable()[0 := Used(0, PIPE_READ_END)];
    assert s1.tables[1][1].Free? && FirstFree(s1.tables[1], 0) == 1;
    PutShape(s1, 1, 1, 0, PIPE_WRITE_END);
  }

  /** The table of process 2 is there and its creator 3 has allocated the console
      when process 1 grants its write end. */
  lemma Granted() returns (s: State, cmds: seq<Cmd>)
    ensures Reached(s, cmds)
    ensures s.tables.Keys == {1, 2} && s.tables[2] == EmptyTable()[0 := Used(0, {Write})]
    ensures s.acts == map[1 := Idle, 3 := Creating(1)] && Obj(s, 1).typ == Console && s.lost == []
  {
    hide Reached;
    var s3, c3 := MakePipe();
    var s4, c4 := Go(s3, c3, CEnsureTable(2));
    var s5, c5 := Go(s4, c4, CAlloc(3, 1, Console));
    GrantIn(s5);
    s, cmds := Go(s5, c5, CGrant(1, 2, Found, 1, {Write}));
  }

  lemma GrantIn(s: State)
    requires s.tables.Keys == {1, 2} && s.tables[1][1] == Used(0, PIPE_WRITE_END) && s.tables[2] == EmptyTable()
    requires ActOf(s, 1).Idle? && 0 in s.objs
    ensures var g := CGrant(1, 2, Found, 1, {Write});
            && Enabled(s, g)
            && var s' := Apply(s, g);
            && s'.tables == s.tables[2 := EmptyTable()[0 := Used(0, {Write})]]
            && s'.acts == s.acts && s'.lost == s.lost && (1 in s.objs ==> Obj(s', 1).typ == Obj(s, 1).typ)
  {
    assert EmptyTable()[0].Free? && FirstFree(s.tables[2], 0) == 0;
    assert {Write} * ALL * PIPE_WRITE_END == {Write};
    PutShape(s, 2, 0, 0, {Write});
  }

  lemma StdioOver(s: State)
    requires s.tables.Keys == {1, 2} && s.tables[2] == EmptyTable()[0 := Used(0, {Write})]
    requires s.acts == map[1 := Idle, 3 := Creating(1)] && Obj(s, 1).typ == Console && s.lost == []
    ensures Enabled(s, CStdio(3, 2))
    ensures var s' := Apply(s, CStdio(3, 2));
            s'.tables.Keys == {1, 2} && s'.acts == map[1 := Idle, 3 := Idle] && s'.lost == [Used(0, {Write})]
  {
    var t := s.tables[2];
    assert t[0].Used? && t[1].Free? && t[2].Free?;
    assert s.lost + Displaced(t[0]) + Displaced(t[1]) + Displaced(t[2]) == [Used(0, {Write})];
  }

  /** Once the console has gone in over the grant and both processes have ended,
      the pipe is still there, counted for a writer nobody holds. */
  lemma GrantOverwritten() returns (s: State, cmds: seq<Cmd>)
    ensures Runs(Boot(), cmds) && After(Boot(), cmds) == s
    ensures Quiescent(s) && s.lost == [Used(0, {Write})] && 0 in s.objs && s.objs[0].refcount == 1
  {
    var s0, c0 := Granted();
    StdioOver(s0);
    var s1, c1 := Go(s0, c0, CStdio(3, 2));
    hide Runs, After, Inv;
    BootInv();
    RunInv(Boot(), c1);
    s, cmds := EndBoth(s1, c1);
    RunInv(Boot(), cmds);
    OneLeft(s);
  }

  lemma OneLeft(s: State)
    requires Inv(s) && Quiescent(s) && s.lost == [Used(0, {Write})]
    ensures 0 in s.objs && s.objs[0].refcount == 1
  {
    assert Holds(s.lost[0], 0, {});
    Survivors(s, 0);
    Consequences(s);
    assert Holders(s.tables, 0, {}) == {};
    forall p | p in s.acts ensures s.acts[p] == Idle {
      assert ActOf(s, p).Idle?;
    }
    assert Pinners(s.acts, 0) == {};
    assert s.lost[..0] == [] && Lost(s.lost, 0, {}) == 1;
  }

  lemma EndBoth(s: State, cmds: seq<Cmd>) returns (s': State, cmds': seq<Cmd>)
    requires Reached(s, cmds) && Inv(s)
    requires s.tables.Keys == {1, 2} && s.acts == map[1 := Idle, 3 := Idle]
    ensures Reached(s', cmds') && Quiescent(s') && s'.acts == s.acts && s'.lost == s.lost
  {
    hide Reached, Inv, DestroyTable;
    ProcessSteps.DestroyTableInv(s, 1);
    var s1, c1 := Go(s, cmds, CDestroy(1));
    ProcessSteps.DestroyTableInv(s1, 2);
    s', cmds' := Go(s1, c1, CDestroy(2));
    assert s'.tables.Keys == {};
  }
}
