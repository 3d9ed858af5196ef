/** Rights only shrink: over any run, every handle to an object descends from a
    handle that existed before, unless the object can be reacquired by name. */
module HandleRights {
  import opened Basics
  import opened HandleSpec
  import opened HandleInvariant
  import opened HandleSteps
  import opened HandleRuns
  import ProcessSteps
  import PortSend

  /** Still local to its creator: no handle to it was ever installed. */
  predicate BeingCreated(a: Act, o: ObjId) {
    match a
    case Creating(x) => x == o
    case PortReady(x, _, _, _) => x == o
    case _ => false
  }

  ghost predicate Fresh(s: State, o: ObjId) {
    exists p :: p in s.acts && BeingCreated(s.acts[p], o)
  }

  /** A handle that acquisition by name cannot give: any handle to anything but
      a port, and a handle with the receive right to a port. */
  predicate Guarded(s: State, slot: Slot) {
    slot.Used? && (Obj(s, slot.obj).typ == Port ==> Read in slot.rights)
  }

  /** Some handle to the same object holds all these rights. */
  ghost predicate Covered(tables: map<Pid, Table>, slot: Slot) {
    slot.Used? && exists p, i :: p in tables && 0 <= i < NPROC_HANDLES && Holds(tables[p][i], slot.obj, slot.rights)
  }

  ghost predicate SameKind(s: State, s': State) {
    forall o :: o in s.objs && o in s'.objs ==>
      s'.objs[o].typ == s.objs[o].typ && s'.objs[o].name == s.objs[o].name
  }

  /** What one step does to identities, to names, and to guarded handles. */
  ghost predicate Evolves(s: State, s': State) {
    && SameKind(s, s')
    && (forall o :: o in s.objs && o in s'.objs && Fresh(s', o) ==> Fresh(s, o))
    && (forall q, j :: q in s'.tables && 0 <= j < NPROC_HANDLES && Guarded(s', s'.tables[q][j])
                       && s'.tables[q][j].obj in s'.objs
                       ==> Inherited(s, s'.tables[q][j]))
  }

  ghost predicate Shrinks(s: State, s': State) {
    forall i :: 0 <= i < PORT_TABLE_MAX ==> s'.ports[i] == s.ports[i] || s'.ports[i].None?
  }

  ghost predicate Inherited(s: State, slot: Slot) {
    slot.Used? && (Covered(s.tables, slot) || Fresh(s, slot.obj))
  }

  /** A step inside one critical section: no object appears, no process moves. */
  ghost predicate Within(s: State, s': State) {
    && s'.objs.Keys <= s.objs.Keys && s'.acts == s.acts
    && (forall o :: o in s'.objs ==> s'.objs[o].typ == s.objs[o].typ && s'.objs[o].name == s.objs[o].name)
    && Shrinks(s, s')
    && (forall q, j :: q in s'.tables && 0 <= j < NPROC_HANDLES && Guarded(s, s'.tables[q][j])
                       ==> Inherited(s, s'.tables[q][j]))
  }

  lemma Here(s: State, p: Pid, i: int)
    requires p in s.tables && 0 <= i < NPROC_HANDLES && s.tables[p][i].Used?
    ensures Covered(s.tables, s.tables[p][i])
  {
    assert Holds(s.tables[p][i], s.tables[p][i].obj, s.tables[p][i].rights);
  }

  lemma SelfWithin(s: State)
    ensures Within(s, s)
  {
    forall q, j | q in s.tables && 0 <= j < NPROC_HANDLES && Guarded(s, s.tables[q][j]) ensures Inherited(s, s.tables[q][j]) {
      Here(s, q, j);
    }
  }

  lemma WithinTrans(s: State, s1: State, s2: State)
    requires Within(s, s1) && Within(s1, s2)
    ensures Within(s, s2)
  {
    forall q, j | q in s2.tables && 0 <= j < NPROC_HANDLES && Guarded(s, s2.tables[q][j])
      ensures Inherited(s, s2.tables[q][j])
    {
      var slot := s2.tables[q][j];
      assert Guarded(s1, slot);
      assert Inherited(s1, slot);
      if Covered(s1.tables, slot) {
        var p, i :| p in s1.tables && 0 <= i < NPROC_HANDLES && Holds(s1.tables[p][i], slot.obj, slot.rights);
        assert Guarded(s, s1.tables[p][i]);
        Widen(s, s1.tables[p][i], slot);
      }
    }
  }

  /** What covers a handle covers every attenuation of it. */
  lemma Widen(s: State, wide: Slot, slot: Slot)
    requires slot.Used? && Holds(wide, slot.obj, slot.rights) && Inherited(s, wide)
    ensures Inherited(s, slot)
  {
    if Covered(s.tables, wide) {
      var p, i :| p in s.tables && 0 <= i < NPROC_HANDLES && Holds(s.tables[p][i], wide.obj, wide.rights);
      assert Holds(s.tables[p][i], slot.obj, slot.rights);
    }
  }

  lemma PutWithin(s: State, p: Pid, i: nat, o: ObjId, rights: Rights)
    requires p in s.tables && i < NPROC_HANDLES && o in s.objs
    requires Guarded(s, Used(o, rights)) ==> Inherited(s, Used(o, rights))
    ensures Within(s, Put(s, p, i, o, rights))
  {
    PutShape(s, p, i, o, rights);
    var s' := Put(s, p, i, o, rights);
    forall q, j | q in s'.tables && 0 <= j < NPROC_HANDLES && Guarded(s, s'.tables[q][j]) ensures Inherited(s, s'.tables[q][j]) {
      if (q, j) != (p, i as int) {
        Here(s, q, j);
      }
    }
  }

  lemma InstallWithin(s: State, p: Pid, o: ObjId, rights: Rights)
    requires o in s.objs
    requires Guarded(s, Used(o, rights)) ==> Inherited(s, Used(o, rights))
    ensures Within(s, Install(s, p, o, rights).0)
  {
    if p in s.tables && FirstFree(s.tables[p], 0) < NPROC_HANDLES {
      PutWithin(s, p, FirstFree(s.tables[p], 0), o, rights);
    } else {
      SelfWithin(s);
    }
  }

  /** Installing a copy with fewer rights. */
  lemma CopyWithin(s: State, p: Pid, i: int, q: Pid, rights: Rights)
    requires Inv(s) && ValidHandle(s, p, i)
    ensures Within(s, Install(s, q, s.tables[p][i].obj, rights * s.tables[p][i].rights).0)
  {
    var src := s.tables[p][i];
    NamedHasRef(s, p, i);
    Here(s, p, i);
    Widen(s, src, Used(src.obj, rights * src.rights));
    InstallWithin(s, q, src.obj, rights * src.rights);
  }

  lemma ForgetWithin(s: State, o: ObjId, rights: Rights)
    requires o in s.objs
    ensures Within(s, Forget(s, o, rights))
  {
    ForgetShape(s, o, rights);
    SelfWithin(s);
  }

  lemma DropWithin(s: State, p: Pid, i: nat)
    requires p in s.tables && i < NPROC_HANDLES && s.tables[p][i].Used? && s.tables[p][i].obj in s.objs
    ensures Within(s, Drop(s, p, i))
  {
    var s1 := SetSlot(s, p, i, Free);
    forall q, j | q in s1.tables && 0 <= j < NPROC_HANDLES && Guarded(s, s1.tables[q][j]) ensures Inherited(s, s1.tables[q][j]) {
      Here(s, q, j);
    }
    ForgetWithin(s1, s.tables[p][i].obj, s.tables[p][i].rights);
    WithinTrans(s, s1, Drop(s, p, i));
  }

  // ----- leaving the critical section --------------------------------------------------------

  /** The process moves on, without starting to create anything. */
  lemma MoveEvolves(s: State, s1: State, p: Pid, a: Act)
    requires Within(s, s1) && (forall o :: BeingCreated(a, o) ==> o !in s.objs)
    ensures Evolves(s, SetAct(s1, p, a)) && Evolves(s, s1)
    ensures Shrinks(s, SetAct(s1, p, a)) && Shrinks(s, s1)
  {
    var s' := SetAct(s1, p, a);
    forall o | o in s.objs && o in s'.objs && Fresh(s', o) ensures Fresh(s, o) {
      var q :| q in s'.acts && BeingCreated(s'.acts[q], o);
      assert q != p && s.acts[q] == s'.acts[q];
    }
    forall q, j | q in s1.tables && 0 <= j < NPROC_HANDLES && Guarded(s1, s1.tables[q][j]) && s1.tables[q][j].obj in s1.objs
      ensures Inherited(s, s1.tables[q][j])
    {
      assert Guarded(s, s1.tables[q][j]);
    }
  }

  /** The object a process is creating may be installed with any rights. */
  lemma FreshWithin(s: State, p: Pid, o: ObjId, q: Pid, rights: Rights)
    requires o in s.objs && p in s.acts && BeingCreated(s.acts[p], o)
    ensures Within(s, Install(s, q, o, rights).0)
  {
    assert Fresh(s, o);
    InstallWithin(s, q, o, rights);
  }

  lemma InstallNewEvolves(s: State, p: Pid, rights: Rights)
    requires Inv(s) && ActOf(s, p).Creating?
    ensures Evolves(s, InstallNew(s, p, rights).0) && Shrinks(s, InstallNew(s, p, rights).0)
  {
    OwnedHasNoRef(s, p);
    var o := s.acts[p].obj;
    FreshWithin(s, p, o, p, rights * ALL);
    var (s1, h) := Install(s, p, o, rights * ALL);
    MoveEvolves(s, s1, p, if h < 0 then Freeing(o) else Idle);
  }

  lemma InstallPipeEvolves(s: State, p: Pid)
    requires Inv(s) && ActOf(s, p).Creating?
    ensures Evolves(s, InstallPipe(s, p).0) && Shrinks(s, InstallPipe(s, p).0)
  {
    OwnedHasNoRef(s, p);
    var o := s.acts[p].obj;
    FreshWithin(s, p, o, p, PIPE_READ_END);
    InstallCore(s, p, o, PIPE_READ_END);
    var (s1, rfd) := Install(s, p, o, PIPE_READ_END);
    MoveEvolves(s, s1, p, Freeing(o));
    if rfd >= 0 {
      FreshWithin(s1, p, o, p, PIPE_WRITE_END);
      var s2 := Install(s1, p, o, PIPE_WRITE_END).0;
      WithinTrans(s, s1, s2);
      MoveEvolves(s, s2, p, Idle);
    }
  }

  lemma SelfEvolves(s: State)
    ensures Evolves(s, s) && Shrinks(s, s)
  {
    SelfWithin(s);
    MoveEvolves(s, s, 0, Idle);
  }

  lemma DupEvolves(s: State, p: Pid, h: int, rights: Rights)
    requires Inv(s)
    ensures Evolves(s, Dup(s, p, h, rights).0) && Shrinks(s, Dup(s, p, h, rights).0)
  {
    SelfEvolves(s);
    if ValidHandle(s, p, h) {
      CopyWithin(s, p, h, p, rights * ALL);
      MoveEvolves(s, Install(s, p, s.tables[p][h].obj, rights * ALL * s.tables[p][h].rights).0, 0, Idle);
    }
  }

  lemma GrantEvolves(s: State, p: Pid, target: Pid, v: Verdict, h: int, rights: Rights)
    requires Inv(s)
    ensures Evolves(s, Grant(s, p, target, v, h, rights).0) && Shrinks(s, Grant(s, p, target, v, h, rights).0)
  {
    SelfEvolves(s);
    if ValidHandle(s, p, h) {
      CopyWithin(s, p, h, target, rights * ALL);
      MoveEvolves(s, Install(s, target, s.tables[p][h].obj, rights * ALL * s.tables[p][h].rights).0, 0, Idle);
    }
  }

  lemma CloseEvolves(s: State, p: Pid, h: int)
    requires Inv(s)
    ensures Evolves(s, Close(s, p, h).0) && Shrinks(s, Close(s, p, h).0)
  {
    SelfEvolves(s);
    if ValidHandle(s, p, h) {
      NamedHasRef(s, p, h);
      DropWithin(s, p, h);
      MoveEvolves(s, Drop(s, p, h), p, Freeing(s.tables[p][h].obj));
    }
  }

  lemma AddRefWithin(s: State, o: ObjId, delta: int)
    requires o in s.objs
    ensures Within(s, AddRef(s, o, delta))
  {
    SelfWithin(s);
  }

  lemma PinEvolves(s: State, p: Pid, h: int, need: Rights)
    requires Inv(s)
    ensures Evolves(s, Pin(s, p, h, need).0) && Shrinks(s, Pin(s, p, h, need).0)
  {
    SelfEvolves(s);
    if ValidHandle(s, p, h) {
      NamedHasRef(s, p, h);
      AddRefWithin(s, s.tables[p][h].obj, 1);
      MoveEvolves(s, AddRef(s, s.tables[p][h].obj, 1), p, Pinned(s.tables[p][h].obj, need));
    }
  }

  lemma UnpinEvolves(s: State, p: Pid)
    requires Inv(s) && ActOf(s, p).Pinned?
    ensures Evolves(s, Unpin(s, p)) && Shrinks(s, Unpin(s, p))
  {
    PinHasRef(s, p);
    hide Inv, Evolves, Shrinks, Within;
    var o := s.acts[p].obj;
    AddRefWithin(s, o, -1);
    var s1 := AddRef(s, o, -1);
    MoveEvolves(s, s1, p, Idle);
    MoveEvolves(s, s1, p, Freeing(o));
    SetTwice(s1, p, Idle, Freeing(o));
    hide AddRef, SetAct;
  }

  lemma SetTwice(s: State, p: Pid, a: Act, b: Act)
    ensures SetAct(SetAct(s, p, a), p, b) == SetAct(s, p, b)
  {
    assert s.acts[p := a][p := b] == s.acts[p := b];
  }

  lemma FreeWithin(s: State, o: ObjId)
    ensures Within(s, FreeObj(s, o))
  {
    SelfWithin(s);
  }

  lemma ReleaseEvolves(s: State, p: Pid)
    requires Inv(s) && ActOf(s, p).Freeing?
    ensures Evolves(s, Release(s, p)) && Shrinks(s, Release(s, p))
  {
    FreeWithin(s, s.acts[p].obj);
    MoveEvolves(s, FreeObj(s, s.acts[p].obj), p, Idle);
  }

  lemma AllocEvolves(s: State, p: Pid, o: ObjId, k: KObject, a: Act)
    requires Inv(s) && o !in s.objs && (forall x :: BeingCreated(a, x) ==> x == o)
    ensures Evolves(s, SetAct(AllocObj(s, o, k), p, a)) && Shrinks(s, SetAct(AllocObj(s, o, k), p, a))
  {
    var s' := SetAct(AllocObj(s, o, k), p, a);
    forall x | x in s.objs && x in s'.objs && Fresh(s', x) ensures Fresh(s, x) {
      var q :| q in s'.acts && BeingCreated(s'.acts[q], x);
      assert q != p && s.acts[q] == s'.acts[q];
    }
    forall q, j | q in s'.tables && 0 <= j < NPROC_HANDLES && s'.tables[q][j].Used? ensures Inherited(s, s'.tables[q][j]) {
      Here(s, q, j);
    }
  }

  lemma PortLookupEvolves(s: State, p: Pid, path: string, rights: Rights)
    requires Inv(s)
    ensures Evolves(s, PortLookup(s, p, path, rights).0) && Shrinks(s, PortLookup(s, p, path, rights).0)
  {
    var want, found := rights * ALL, PortFind(s, path, 0);
    SelfEvolves(s);
    if Read !in want {
      if found < PORT_TABLE_MAX {
        var o := s.ports[found].value;
        assert EntryOk(s, s.ports[found]);
        InstallWithin(s, p, o, want - {Read});
        MoveEvolves(s, Install(s, p, o, want - {Read}).0, 0, Idle);
      }
    } else {
      SelfWithin(s);
      forall slot: PortIndex ensures Evolves(s, SetAct(s, p, PortSlot(slot, path, want))) {
        MoveEvolves(s, s, p, PortSlot(slot, path, want));
      }
    }
  }

  lemma PortPublishEvolves(s: State, p: Pid)
    requires Inv(s) && ActOf(s, p).PortReady?
    ensures Evolves(s, PortPublish(s, p).0)
  {
    hide Inv, Within, Evolves, Shrinks, Install, PortFind;
    var a := s.acts[p];
    OwnedHasNoRef(s, p);
    SelfWithin(s);
    MoveEvolves(s, s, p, Freeing(a.obj));
    FreshWithin(s, p, a.obj, p, a.want);
    var s1 := Install(s, p, a.obj, a.want).0;
    MoveEvolves(s, s1, p, Freeing(a.obj));
    MoveEvolves(s, s1, p, Idle);
    EvolvesIgnoresPorts(s, SetAct(s1, p, Idle), SetAct(s1.(ports := s1.ports[a.slot := Some(a.obj)]), p, Idle));
  }

  lemma EvolvesIgnoresPorts(s: State, s1: State, s2: State)
    requires Evolves(s, s1) && s2 == s1.(ports := s2.ports)
    ensures Evolves(s, s2)
  {
    forall o | o in s.objs && o in s2.objs && Fresh(s2, o) ensures Fresh(s, o) {
      assert Fresh(s1, o);
    }
    forall q, j | q in s2.tables && 0 <= j < NPROC_HANDLES && Guarded(s2, s2.tables[q][j]) && s2.tables[q][j].obj in s2.objs
      ensures Inherited(s, s2.tables[q][j])
    {
      assert Guarded(s1, s1.tables[q][j]);
    }
  }

  lemma QueueWithin(s: State, o: ObjId, q: seq<Message>)
    requires o in s.objs
    ensures Within(s, s.(objs := s.objs[o := s.objs[o].(queue := q)]))
  {
    SelfWithin(s);
  }

  lemma PortWriteEvolves(s: State, p: Pid, m: Message)
    requires Inv(s) && ActOf(s, p).Pinned?
    ensures Evolves(s, PortWrite(s, p, m).0) && Shrinks(s, PortWrite(s, p, m).0)
  {
    hide Inv, Within, Evolves, Shrinks;
    PinLive(s, p);
    var o := s.acts[p].obj;
    SelfEvolves(s);
    QueueWithin(s, o, s.objs[o].queue + [m.(from := p)]);
    hide SameKind, Inherited;
    MoveEvolves(s, Enqueue(s, o, m.(from := p)), 0, Idle);
  }

  lemma PortReadEvolves(s: State, p: Pid)
    requires Inv(s) && ActOf(s, p).Pinned?
    ensures Evolves(s, PortRead(s, p).0) && Shrinks(s, PortRead(s, p).0)
  {
    hide Inv, Within, Evolves, Shrinks;
    PinLive(s, p);
    var o := s.acts[p].obj;
    SelfEvolves(s);
    if |s.objs[o].queue| > 0 {
      QueueWithin(s, o, s.objs[o].queue[1..]);
      MoveEvolves(s, s.(objs := s.objs[o := s.objs[o].(queue := s.objs[o].queue[1..])]), 0, Idle);
    }
  }

  lemma EnsureTableWithin(s: State, p: Pid)
    ensures Within(s, EnsureTable(s, p))
  {
    SelfWithin(s);
  }

  lemma StdioEvolves(s: State, q: Pid, p: Pid)
    requires Inv(s) && ActOf(s, q).Creating? && Obj(s, s.acts[q].obj).typ == Console && p in s.tables
    ensures Evolves(s, InstallStdio(s, q, p)) && Shrinks(s, InstallStdio(s, q, p))
  {
    var o := s.acts[q].obj;
    OwnedHasNoRef(s, q);
    hide Inv;
    assert Fresh(s, o);
    StdioTables(s, q, p);
    var s1 := InstallStdio(s, q, p).(acts := s.acts);
    MoveEvolves(s, s1, q, Idle);
  }

  lemma StdioTables(s: State, q: Pid, p: Pid)
    requires ActOf(s, q).Creating? && s.acts[q].obj in s.objs && p in s.tables && Fresh(s, s.acts[q].obj)
    ensures Within(s, InstallStdio(s, q, p).(acts := s.acts))
  {
    var o, s1 := s.acts[q].obj, InstallStdio(s, q, p).(acts := s.acts);
    forall r, j | r in s1.tables && 0 <= j < NPROC_HANDLES && Guarded(s, s1.tables[r][j]) ensures Inherited(s, s1.tables[r][j]) {
      if s1.tables[r][j].obj != o {
        Here(s, r, j);
      }
    }
  }

  lemma RedirectEvolves(s: State, p: Pid, owner: Pid, child: Pid, slot: int, fd: int)
    requires Inv(s)
    ensures var s' := Redirect(s, p, owner, child, slot, fd).0; Evolves(s, s') && Shrinks(s, s')
  {
    hide Inv, Within, Evolves, Shrinks, Put, Forget;
    SelfEvolves(s);
    if 0 <= slot < NPROC_HANDLES && 0 <= fd < NPROC_HANDLES && owner in s.tables {
      EnsureTableWithin(s, child);
      ProcessSteps.EnsureTableInv(s, child);
      var s0 := EnsureTable(s, child);
      MoveEvolves(s, s0, 0, Idle);
      if s0.tables[owner][fd].Used? {
        OverwriteWithin(s0, owner, fd, child, slot);
        var src, prev := s0.tables[owner][fd], s0.tables[child][slot];
        var s1 := Put(s0, child, slot, src.obj, src.rights);
        WithinTrans(s, s0, s1);
        MoveEvolves(s, s1, 0, Idle);
        if prev.Used? {
          WithinTrans(s, s0, Forget(s1, prev.obj, prev.rights));
          MoveEvolves(s, Forget(s1, prev.obj, prev.rights), p, Freeing(prev.obj));
        }
      }
    }
  }

  lemma OverwriteWithin(s: State, owner: Pid, fd: nat, child: Pid, slot: nat)
    requires Inv(s) && child in s.tables && owner in s.tables
    requires slot < NPROC_HANDLES && fd < NPROC_HANDLES && s.tables[owner][fd].Used?
    ensures var src, prev := s.tables[owner][fd], s.tables[child][slot];
            var s1 := Put(s, child, slot, src.obj, src.rights);
            Within(s, s1) && (prev.Used? ==> Within(s, Forget(s1, prev.obj, prev.rights)))
  {
    var src, prev := s.tables[owner][fd], s.tables[child][slot];
    NamedHasRef(s, owner, fd);
    Here(s, owner, fd);
    PutWithin(s, child, slot, src.obj, src.rights);
    var s1 := Put(s, child, slot, src.obj, src.rights);
    if prev.Used? {
      NamedHasRef(s, child, slot);
      PutShape(s, child, slot, src.obj, src.rights);
      ForgetWithin(s1, prev.obj, prev.rights);
      WithinTrans(s, s1, Forget(s1, prev.obj, prev.rights));
    }
  }

  lemma {:induction false} DestroyWithin(s: State, p: Pid, i: nat)
    requires Inv(s) && p in s.tables && i <= NPROC_HANDLES
    ensures Within(s, DestroyFrom(s, p, i))
    decreases NPROC_HANDLES - i
  {
    hide Inv, Within;
    if i == NPROC_HANDLES {
      SelfWithin(s);
    } else if s.tables[p][i].Free? {
      DestroyWithin(s, p, i + 1);
    } else {
      var s1, s2 := Drop(s, p, i), ProcessSteps.DestroySlot(s, p, i);
      NamedLive(s, p, i);
      DropWithin(s, p, i);
      FreeWithin(s1, s.tables[p][i].obj);
      if s2 != s1 {
        WithinTrans(s, s1, s2);
      }
      ProcessSteps.DestroySlotInv(s, p, i);
      DestroyWithin(s2, p, i + 1);
      WithinTrans(s, s2, DestroyFrom(s2, p, i + 1));
    }
  }

  lemma DestroyEvolves(s: State, p: Pid)
    requires Inv(s)
    ensures Evolves(s, DestroyTable(s, p)) && Shrinks(s, DestroyTable(s, p))
  {
    SelfEvolves(s);
    if p in s.tables {
      DestroyWithin(s, p, 0);
      var s1 := DestroyFrom(s, p, 0);
      var s2 := s1.(tables := s1.tables - {p});
      SelfWithin(s1);
      WithinTrans(s, s1, s2);
      MoveEvolves(s, s2, 0, Idle);
    }
  }

  lemma SendCapsEvolves(s: State, p: Pid, alive: bool, m: Message, fds: seq<int>)
    requires Inv(s) && ActOf(s, p).Pinned? && p in s.tables
    ensures var s' := SendCaps(s, p, alive, m, fds).state; Evolves(s, s') && Shrinks(s, s')
  {
    hide SendCaps;
    var s' := SendCaps(s, p, alive, m, fds).state;
    if SendCaps(s, p, alive, m, fds).ret < 0 {
      PortSend.SendFailsClean(s, p, alive, m, fds);
      SelfEvolves(s);
    } else {
      PortSend.SendDelivers(s, p, alive, m, fds);
      var o := s.acts[p].obj;
      var slots :| PortSend.Delivered(s, s', p, o, m, fds, slots);
      DeliveredWithin(s, s', p, o, m, fds, slots);
      MoveEvolves(s, s', 0, Idle);
    }
  }

  lemma DeliveredWithin(s: State, s': State, p: Pid, o: ObjId, m: Message, fds: seq<int>, slots: seq<nat>)
    requires PortSend.Delivered(s, s', p, o, m, fds, slots)
    ensures Within(s, s')
  {
    var rcv := s.objs[o].owner;
    forall q, j | q in s'.tables && 0 <= j < NPROC_HANDLES && Guarded(s, s'.tables[q][j]) ensures Inherited(s, s'.tables[q][j]) {
      if q == rcv && j in slots {
        var k :| 0 <= k < |slots| && slots[k] == j;
        assert PortSend.Borrowed(s.tables, s'.tables, p, rcv, slots[k]);
        var i :| 0 <= i < NPROC_HANDLES && s.tables[p][i] == s'.tables[q][j];
        Here(s, p, i);
      } else {
        assert s'.tables[q][j] == s.tables[q][j];
        Here(s, q, j);
      }
    }
  }

  // ----- every command, every run ----------------------------------------------------------

  lemma ApplyEvolves(s: State, c: Cmd)
    requires Inv(s) && Enabled(s, c)
    ensures Evolves(s, Apply(s, c))
    ensures !c.CPortPublish? ==> Shrinks(s, Apply(s, c))
  {
    hide Inv, Evolves, Shrinks, Within;
    match c
    case CEnsureTable(p) =>
      EnsureTableWithin(s, p);
      MoveEvolves(s, EnsureTable(s, p), 0, Idle);
    case CAlloc(p, o, t) => AllocEvolves(s, p, o, NewObject(t, "", 0), Creating(o));
    case CInstallNew(p, r) => InstallNewEvolves(s, p, r);
    case CInstallPipe(p) => InstallPipeEvolves(s, p);
    case CDup(p, h, r) => DupEvolves(s, p, h, r);
    case CClose(p, h) => CloseEvolves(s, p, h);
    case CGrant(p, t, v, h, r) => GrantEvolves(s, p, t, v, h, r);
    case CPin(p, h, r) => PinEvolves(s, p, h, r);
    case CUnpin(p) => UnpinEvolves(s, p);
    case CRelease(p) => ReleaseEvolves(s, p);
    case CPortLookup(p, path, r) => PortLookupEvolves(s, p, path, r);
    case CPortAlloc(p, o) =>
      var a := s.acts[p];
      AllocEvolves(s, p, o, NewObject(Port, Truncate(a.path), p), PortReady(o, a.slot, a.path, a.want));
    case CPortPublish(p) => PortPublishEvolves(s, p);
    case CPortWrite(p, m) => PortWriteEvolves(s, p, m);
    case CPortRead(p) => PortReadEvolves(s, p);
    case CSendCaps(p, alive, m, fds) => SendCapsEvolves(s, p, alive, m, fds);
    case CStdio(p, child) => StdioEvolves(s, p, child);
    case CRedirect(p, owner, child, slot, h) => RedirectEvolves(s, p, owner, child, slot, h);
    case CDestroy(p) => DestroyEvolves(s, p);
  }

  /** o stays allocated from s to the end of the run. */
  predicate Throughout(s: State, cmds: seq<Cmd>, o: ObjId)
    requires Runs(s, cmds)
    decreases |cmds|
  {
    o in s.objs && (cmds == [] || Throughout(Apply(s, cmds[0]), cmds[1..], o))
  }

  /** No escalation: along any run from a reachable state, as long as an object
      whose creation is over stays allocated, every guarded handle to it holds a
      subset of the rights of a handle that already existed at the start. */
  lemma {:induction false} NoEscalation(s: State, cmds: seq<Cmd>, o: ObjId, q: Pid, j: int)
    requires Inv(s) && Runs(s, cmds) && Throughout(s, cmds, o) && !Fresh(s, o)
    requires ValidHandle(After(s, cmds), q, j) && After(s, cmds).tables[q][j].obj == o
    requires s.objs[o].typ == Port ==> Read in After(s, cmds).tables[q][j].rights
    ensures Covered(s.tables, After(s, cmds).tables[q][j])
    decreases |cmds|
  {
    if cmds == [] {
      Here(s, q, j);
    } else {
      var s1, slot := Apply(s, cmds[0]), After(s, cmds).tables[q][j];
      Link(s, cmds[0], o);
      ApplyInv(s, cmds[0]);
      assert o in s1.objs;
      NoEscalation(s1, cmds[1..], o, q, j);
      var p, i :| p in s1.tables && 0 <= i < NPROC_HANDLES && Holds(s1.tables[p][i], o, slot.rights);
      Inherit(s, s1, o, p, i, slot);
    }
  }

  lemma Link(s: State, c: Cmd, o: ObjId)
    requires Inv(s) && Enabled(s, c) && o in s.objs && o in Apply(s, c).objs && !Fresh(s, o)
    ensures Evolves(s, Apply(s, c)) && !Fresh(Apply(s, c), o) && Apply(s, c).objs[o].typ == s.objs[o].typ
  {
    hide Inv, Enabled, Apply;
    ApplyEvolves(s, c);
  }

  lemma Inherit(s: State, s1: State, o: ObjId, p: Pid, i: int, slot: Slot)
    requires Evolves(s, s1) && !Fresh(s, o) && o in s.objs && o in s1.objs
    requires p in s1.tables && 0 <= i < NPROC_HANDLES && slot.Used? && slot.obj == o && Holds(s1.tables[p][i], o, slot.rights)
    requires s.objs[o].typ == Port ==> Read in slot.rights
    ensures Covered(s.tables, slot)
  {
    assert Guarded(s1, s1.tables[p][i]);
    Widen(s, s1.tables[p][i], slot);
  }
}
