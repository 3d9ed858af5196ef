/** The exact limits of the port table: names of 32 characters and more are not
    unique, and a published receiver can be displaced by a concurrent one. */
module PortLimits {
  import opened Basics
  import opened HandleSpec
  import opened HandleInvariant
  import opened HandleRuns
  import opened HandleTheorems
  import HandleSteps

  lemma Publishable(s: State, path: string)
    requires forall i :: 0 <= i < PORT_TABLE_MAX ==> !Published(s, i, path)
    ensures PortFind(s, path, 0) == PORT_TABLE_MAX
  {
  }

  const RECEIVE: Rights := {Read}

  /** A fresh port as its one receiver leaves it. */
  function Service(path: string, p: Pid): KObject {
    KObject(Port, 1, 1, 0, Truncate(path), p, [])
  }

  lemma LookupStep(s: State, p: Pid, path: string)
    requires ActOf(s, p).Idle? && (forall i :: 0 <= i < PORT_TABLE_MAX ==> !Published(s, i, path))
    requires FirstEmpty(s.ports, 0) < PORT_TABLE_MAX
    ensures Enabled(s, CPortLookup(p, path, RECEIVE))
    ensures Apply(s, CPortLookup(p, path, RECEIVE)) == SetAct(s, p, PortSlot(FirstEmpty(s.ports, 0), path, RECEIVE))
  {
    Publishable(s, path);
    assert RECEIVE * ALL == RECEIVE;
  }

  lemma AllocStep(s: State, p: Pid, o: ObjId)
    requires ActOf(s, p).PortSlot? && o !in s.objs
    ensures Enabled(s, CPortAlloc(p, o))
    ensures var a, s' := s.acts[p], Apply(s, CPortAlloc(p, o));
            && s'.objs == s.objs[o := NewObject(Port, Truncate(a.path), p)]
            && s'.tables == s.tables && s'.ports == s.ports
            && s'.acts == s.acts[p := PortReady(o, a.slot, a.path, a.want)]
  {
  }

  lemma PublishStep(s: State, p: Pid)
    requires ActOf(s, p).PortReady? && s.acts[p].want == RECEIVE
    requires var a := s.acts[p];
             && a.obj in s.objs && s.objs[a.obj] == NewObject(Port, Truncate(a.path), p)
             && (forall i :: 0 <= i < PORT_TABLE_MAX ==> !Published(s, i, a.path))
    requires p in s.tables && FirstFree(s.tables[p], 0) < NPROC_HANDLES
    ensures Enabled(s, CPortPublish(p))
    ensures var a, s' := s.acts[p], Apply(s, CPortPublish(p));
            && s'.objs == s.objs[a.obj := Service(a.path, p)]
            && s'.tables == s.tables[p := s.tables[p][FirstFree(s.tables[p], 0) := Used(a.obj, RECEIVE)]]
            && s'.ports == s.ports[a.slot := Some(a.obj)]
            && s'.acts == s.acts[p := Idle]
  {
    var a := s.acts[p];
    Publishable(s, a.path);
    PutShape(s, p, FirstFree(s.tables[p], 0), a.obj, RECEIVE);
    var s1 := Put(s, p, FirstFree(s.tables[p], 0), a.obj, RECEIVE);
    assert s1.objs[a.obj] == Service(a.path, p);
    assert s1.objs == s.objs[a.obj := Service(a.path, p)];
  }

  /** Process p, with room in its table, publishes `path` undisturbed. */
  lemma PublishOnce(s: State, p: Pid, path: string, o: ObjId)
    requires ActOf(s, p).Idle? && p in s.tables && FirstFree(s.tables[p], 0) < NPROC_HANDLES
    requires o !in s.objs && FirstEmpty(s.ports, 0) < PORT_TABLE_MAX
    requires forall i :: 0 <= i < PORT_TABLE_MAX ==> s.ports[i] != Some(o) && !Published(s, i, path)
    ensures var cmds := [CPortLookup(p, path, RECEIVE), CPortAlloc(p, o), CPortPublish(p)];
            && Runs(s, cmds)
            && var s' := After(s, cmds);
               && ActOf(s', p).Idle? && s'.objs == s.objs[o := Service(path, p)]
               && s'.tables == s.tables[p := s.tables[p][FirstFree(s.tables[p], 0) := Used(o, RECEIVE)]]
               && s'.ports == s.ports[FirstEmpty(s.ports, 0) := Some(o)]
  {
    hide Enabled, Apply;
    var c := [CPortLookup(p, path, RECEIVE), CPortAlloc(p, o), CPortPublish(p)];
    LookupStep(s, p, path);
    var s1 := Apply(s, c[0]);
    AllocStep(s1, p, o);
    var s2 := Apply(s1, c[1]);
    forall i | 0 <= i < PORT_TABLE_MAX ensures !Published(s2, i, path) {
      assert !Published(s, i, path);
    }
    PublishStep(s2, p);
    var s3 := Apply(s2, c[2]);
    assert s3.objs == s.objs[o := Service(path, p)];
    Extend(s, [], c[0]);
    Extend(s, [c[0]], c[1]);
    Extend(s, [c[0], c[1]], c[2]);
    assert [] + [c[0]] == [c[0]] && [c[0]] + [c[1]] == [c[0], c[1]] && [c[0], c[1]] + [c[2]] == c;
  }

  /** For every name of 32 characters or more some run publishes it twice: the
      stored copy is cut off, so comparing it with the full name never finds it. */
  lemma LongNamesCollide(path: string) returns (cmds: seq<Cmd>)
    requires |path| >= PORT_NAME_MAX
    ensures Runs(Boot(), cmds) && !NamesUnique(After(Boot(), cmds))
    ensures forall c :: c in cmds && c.CPortLookup? ==> c.path == path
  {
    hide Apply, Enabled, Runs, After, NamesUnique;
    var e := CEnsureTable(1);
    var c1 := [CPortLookup(1, path, RECEIVE), CPortAlloc(1, 0), CPortPublish(1)];
    var c2 := [CPortLookup(1, path, RECEIVE), CPortAlloc(1, 1), CPortPublish(1)];
    FirstPublish(path);
    SecondPublish(After(Apply(Boot(), e), c1), path);
    OneStep(Boot(), e);
    RunsConcat(Boot(), [e], c1);
    RunsConcat(Boot(), [e] + c1, c2);
    cmds := [e] + c1 + c2;
  }

  predicate AsksOnlyFor(cmds: seq<Cmd>, names: iset<string>) {
    forall c :: c in cmds && c.CPortLookup? ==> c.path in names
  }

  /** All runs that ask only for names in the set keep published names unique if
      and only if every name in the set is shorter than 32 characters. */
  lemma NamesUniqueIff(names: iset<string>)
    ensures (forall cmds :: Runs(Boot(), cmds) && AsksOnlyFor(cmds, names) ==> NamesUnique(After(Boot(), cmds)))
            <==> forall n :: n in names ==> |n| < PORT_NAME_MAX
  {
    if n :| n in names && |n| >= PORT_NAME_MAX {
      var cmds := LongNamesCollide(n);
      assert Runs(Boot(), cmds) && AsksOnlyFor(cmds, names);
    } else {
      forall cmds | Runs(Boot(), cmds) && AsksOnlyFor(cmds, names) ensures NamesUnique(After(Boot(), cmds)) {
        BootInv();
        assert NamesOk(Boot());
        NamesStayUnique(Boot(), cmds);
      }
    }
  }

  lemma FirstPublish(path: string)
    requires |path| >= PORT_NAME_MAX
    ensures var s0 := Apply(Boot(), CEnsureTable(1));
            var c1 := [CPortLookup(1, path, RECEIVE), CPortAlloc(1, 0), CPortPublish(1)];
            && Runs(s0, c1) && Enabled(Boot(), CEnsureTable(1))
            && var s := After(s0, c1);
            && ActOf(s, 1).Idle? && s.objs == map[0 := Service(path, 1)] && |Truncate(path)| < |path|
            && 1 in s.tables && s.tables[1] == EmptyTable()[0 := Used(0, RECEIVE)]
            && s.ports[0] == Some(0) && forall i :: 1 <= i < PORT_TABLE_MAX ==> s.ports[i].None?
  {
    var s0 := Apply(Boot(), CEnsureTable(1));
    assert s0.tables[1][0].Free? && FirstFree(s0.tables[1], 0) == 0;
    assert FirstEmpty(s0.ports, 0) == 0;
    hide Runs, After;
    PublishOnce(s0, 1, path, 0);
  }

  lemma SecondPublish(s: State, path: string)
    requires ActOf(s, 1).Idle? && s.objs == map[0 := Service(path, 1)] && |Truncate(path)| < |path|
    requires 1 in s.tables && s.tables[1] == EmptyTable()[0 := Used(0, RECEIVE)]
    requires s.ports[0] == Some(0) && forall i :: 1 <= i < PORT_TABLE_MAX ==> s.ports[i].None?
    ensures var c2 := [CPortLookup(1, path, RECEIVE), CPortAlloc(1, 1), CPortPublish(1)];
            Runs(s, c2) && !NamesUnique(After(s, c2))
  {
    assert FirstFree(s.tables[1], 0) <= 1 by { assert s.tables[1][1].Free?; }
    assert FirstEmpty(s.ports, 0) == 1 by { assert s.ports[1].None?; }
    forall i | 0 <= i < PORT_TABLE_MAX ensures s.ports[i] != Some(1) && !Published(s, i, path) {}
    hide Runs, After;
    PublishOnce(s, 1, path, 1);
    var s' := After(s, [CPortLookup(1, path, RECEIVE), CPortAlloc(1, 1), CPortPublish(1)]);
    assert s'.ports[0] == Some(0) && s'.ports[1] == Some(1);
    assert Obj(s', 0).name == Obj(s', 1).name;
  }

  /** A publication that goes through keeps every earlier entry if and only if
      the slot chosen in the first critical section is still empty. */
  lemma DisplacesIff(s: State, p: Pid)
    requires Inv(s) && ActOf(s, p).PortReady? && PortPublish(s, p).1 >= 0
    ensures (forall i :: 0 <= i < PORT_TABLE_MAX && s.ports[i].Some? ==> PortPublish(s, p).0.ports[i] == s.ports[i])
            <==> s.ports[s.acts[p].slot].None?
  {
    hide Inv, Install, PortFind;
    var a := s.acts[p];
    PublishFacts(s, p);
    OwnerUnpublished(s, p);
    assert PortPublish(s, p).0.ports == s.ports[a.slot := Some(a.obj)];
  }

  lemma OwnerUnpublished(s: State, p: Pid)
    requires Inv(s) && ActOf(s, p).PortReady?
    ensures forall i :: 0 <= i < PORT_TABLE_MAX ==> s.ports[i] != Some(s.acts[p].obj)
  {
    HandleSteps.OwnedHasNoRef(s, p);
    HandleSteps.NoRefNoName(s, s.acts[p].obj);
  }

  lemma AllocAndPublish(s: State, p: Pid, o: ObjId) returns (s': State)
    requires ActOf(s, p).PortSlot? && s.acts[p].want == RECEIVE && o !in s.objs
    requires p in s.tables && s.tables[p] == EmptyTable()
    requires forall i :: 0 <= i < PORT_TABLE_MAX ==> s.ports[i] != Some(o) && !Published(s, i, s.acts[p].path)
    ensures Enabled(s, CPortAlloc(p, o)) && Enabled(Apply(s, CPortAlloc(p, o)), CPortPublish(p))
    ensures s' == Apply(Apply(s, CPortAlloc(p, o)), CPortPublish(p))
    ensures s'.objs == s.objs[o := Service(s.acts[p].path, p)]
    ensures s'.ports == s.ports[s.acts[p].slot := Some(o)] && s'.acts == s.acts[p := Idle]
    ensures s'.tables == s.tables[p := EmptyTable()[0 := Used(o, RECEIVE)]]
  {
    AllocStep(s, p, o);
    var s1 := Apply(s, CPortAlloc(p, o));
    forall i | 0 <= i < PORT_TABLE_MAX ensures !Published(s1, i, s.acts[p].path) {
      assert !Published(s, i, s.acts[p].path);
    }
    assert EmptyTable()[0].Free? && FirstFree(s1.tables[p], 0) == 0;
    hide Apply, Enabled;
    PublishStep(s1, p);
    s' := Apply(s1, CPortPublish(p));
    assert s'.objs == s.objs[o := Service(s.acts[p].path, p)];
  }

  /** Both services have looked up before either publishes. */
  lemma TwoLookups() returns (cmds: seq<Cmd>)
    ensures Runs(Boot(), cmds)
    ensures var s := After(Boot(), cmds);
            && s.objs == map[] && s.tables == map[1 := EmptyTable(), 2 := EmptyTable()]
            && s.acts == map[1 := PortSlot(0, "a", RECEIVE), 2 := PortSlot(0, "b", RECEIVE)]
            && (forall i :: 0 <= i < PORT_TABLE_MAX ==> s.ports[i].None?)
  {
    var e1, e2 := CEnsureTable(1), CEnsureTable(2);
    var l1, l2 := CPortLookup(1, "a", RECEIVE), CPortLookup(2, "b", RECEIVE);
    Extend(Boot(), [], e1);
    Extend(Boot(), [] + [e1], e2);
    cmds := [] + [e1] + [e2];
    var s0 := After(Boot(), cmds);
    assert s0.tables == map[1 := EmptyTable(), 2 := EmptyTable()];
    hide Apply, Enabled, Runs, After;
    LookupStep(s0, 1, "a");
    Extend(Boot(), cmds, l1);
    LookupStep(Apply(s0, l1), 2, "b");
    Extend(Boot(), cmds + [l1], l2);
    cmds := cmds + [l1] + [l2];
  }

  /** And that slot can be taken: two services that look up at the same time end
      with one of them holding the receive right to a port nobody can find. */
  lemma ReceiverDisplaced() returns (cmds: seq<Cmd>)
    ensures Runs(Boot(), cmds)
    ensures var s := After(Boot(), cmds);
            && 0 in s.objs && s.objs[0].typ == Port && s.objs[0].readers == 1
            && forall i :: 0 <= i < PORT_TABLE_MAX ==> s.ports[i] != Some(0)
  {
    hide Apply, Enabled, Runs, After;
    cmds := TwoLookups();
    var s2 := After(Boot(), cmds);
    var s4 := AllocAndPublish(s2, 1, 0);
    Extend(Boot(), cmds, CPortAlloc(1, 0));
    Extend(Boot(), cmds + [CPortAlloc(1, 0)], CPortPublish(1));
    cmds := cmds + [CPortAlloc(1, 0)] + [CPortPublish(1)];
    var s6 := AllocAndPublish(s4, 2, 1);
    Extend(Boot(), cmds, CPortAlloc(2, 1));
    Extend(Boot(), cmds + [CPortAlloc(2, 1)], CPortPublish(2));
    cmds := cmds + [CPortAlloc(2, 1)] + [CPortPublish(2)];
  }
}
