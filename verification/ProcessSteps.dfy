/** Birth, redirection and teardown of a process's handle table. */
module ProcessSteps {
  import opened Basics
  import opened HandleSpec
  import opened HandleInvariant
  import opened HandleSteps

  /** Two states that agree on everything the counts and the checks look at,
      except for tables with no handle in them. */
  lemma TablesInv(s: State, s': State)
    requires Inv(s) && s' == s.(tables := s'.tables)
    requires forall o, need :: Holders(s'.tables, o, need) == Holders(s.tables, o, need)
    requires forall p, i :: p in s'.tables && 0 <= i < NPROC_HANDLES ==> SlotOk(s, s'.tables[p][i])
    ensures Inv(s')
  {
    forall x | x in s'.objs ensures Exact(s', x, Free) && Owned(s', x) {
      assert Exact(s, x, Free) && Owned(s, x);
    }
    forall q | q in s'.acts ensures ActOk(s', q, s'.acts[q]) {
      assert ActOk(s, q, s.acts[q]);
    }
    forall q, j | q in s'.tables && 0 <= j < NPROC_HANDLES ensures SlotOk(s', s'.tables[q][j]) {
      assert SlotOk(s, s'.tables[q][j]);
    }
    forall j | 0 <= j < PORT_TABLE_MAX ensures EntryOk(s', s'.ports[j]) {
      assert EntryOk(s, s.ports[j]);
    }
  }

  lemma EnsureTableInv(s: State, p: Pid)
    requires Inv(s)
    ensures Inv(EnsureTable(s, p))
  {
    var s' := EnsureTable(s, p);
    forall o, need ensures Holders(s'.tables, o, need) == Holders(s.tables, o, need) {}
    forall q, j | q in s'.tables && 0 <= j < NPROC_HANDLES ensures SlotOk(s, s'.tables[q][j]) {
      if q in s.tables { assert SlotOk(s, s.tables[q][j]); }
    }
    TablesInv(s, s');
  }

  /** Put over whatever the slot holds, which nothing counts down. */
  function Overwrite(s: State, p: Pid, i: nat, o: ObjId, rights: Rights): State
    requires p in s.tables && i < NPROC_HANDLES
  {
    var s1 := Put(s, p, i, o, rights);
    s1.(lost := s1.lost + Displaced(s.tables[p][i]))
  }

  lemma OverwriteCore(s: State, p: Pid, i: nat, o: ObjId, rights: Rights)
    requires Core(s, Free) && p in s.tables && i < NPROC_HANDLES && o in s.objs && rights <= ALL
    ensures Core(Overwrite(s, p, i, o, rights), Free)
  {
    hide Core;
    PutCore(s, p, i, o, rights);
    WriteOffCore(Put(s, p, i, o, rights), s.tables[p][i]);
  }

  /** Setting the three slots and the count directly amounts to three overwrites:
      a console has no endpoints to count. */
  lemma StdioIsThree(s: State, q: Pid, p: Pid)
    requires ActOf(s, q).Creating? && p in s.tables
    requires var o := s.acts[q].obj; o in s.objs && s.objs[o].typ == Console && s.objs[o].refcount == 0
    ensures var o := s.acts[q].obj;
            var s1 := Overwrite(s, p, 0, o, {Read});
            && p in s1.tables && o in s1.objs
            && var s2 := Overwrite(s1, p, 1, o, {Write});
            && p in s2.tables && o in s2.objs
            && InstallStdio(s, q, p) == SetAct(Overwrite(s2, p, 2, o, {Write}), q, Idle)
  {
    var o := s.acts[q].obj;
    var s1 := Overwrite(s, p, 0, o, {Read});
    assert s1.tables == s.tables[p := s.tables[p][0 := Used(o, {Read})]];
    assert s1.objs == s.objs[o := s.objs[o].(refcount := 1)];
    var s2 := Overwrite(s1, p, 1, o, {Write});
    assert s2.objs == s.objs[o := s.objs[o].(refcount := 2)];
    var s3 := Overwrite(s2, p, 2, o, {Write});
    assert s3.objs == s.objs[o := s.objs[o].(refcount := 3)];
    assert s3.tables == InstallStdio(s, q, p).tables;
  }

  /** The three standard slots of any child, whatever was granted to it before. */
  lemma InstallStdioInv(s: State, q: Pid, p: Pid)
    requires Inv(s) && ActOf(s, q).Creating? && p in s.tables
    requires Obj(s, s.acts[q].obj).typ == Console
    ensures Inv(InstallStdio(s, q, p))
  {
    hide Core;
    OwnedHasNoRef(s, q);
    StdioBefore(s, q, p);
    var s3 := InstallStdio(s, q, p).(acts := s.acts);
    GiveUp(s, s3, q, s.acts[q].obj);
    assert InstallStdio(s, q, p) == SetAct(s3, q, Idle);
  }

  /** The critical section before the creator lets go. */
  lemma StdioBefore(s: State, q: Pid, p: Pid)
    requires Core(s, Free) && ActOf(s, q).Creating? && p in s.tables
    requires var o := s.acts[q].obj; o in s.objs && s.objs[o].typ == Console && s.objs[o].refcount == 0
    ensures Core(InstallStdio(s, q, p).(acts := s.acts), Free)
  {
    hide Core;
    var o := s.acts[q].obj;
    StdioIsThree(s, q, p);
    StdioCore(s, p, o);
    var s3 := Overwrite(Overwrite(Overwrite(s, p, 0, o, {Read}), p, 1, o, {Write}), p, 2, o, {Write});
    assert s3.acts == s.acts;
    assert InstallStdio(s, q, p).(acts := s.acts) == s3;
  }

  lemma StdioCore(s: State, p: Pid, o: ObjId)
    requires Core(s, Free) && p in s.tables && o in s.objs
    ensures var s1 := Overwrite(s, p, 0, o, {Read});
            && p in s1.tables && o in s1.objs
            && var s2 := Overwrite(s1, p, 1, o, {Write});
            && p in s2.tables && o in s2.objs && Core(Overwrite(s2, p, 2, o, {Write}), Free)
  {
    PutShape(s, p, 0, o, {Read});
    OverwriteCore(s, p, 0, o, {Read});
    hide Core;
    var s1 := Overwrite(s, p, 0, o, {Read});
    PutShape(s1, p, 1, o, {Write});
    OverwriteCore(s1, p, 1, o, {Write});
    var s2 := Overwrite(s1, p, 1, o, {Write});
    OverwriteCore(s2, p, 2, o, {Write});
  }

  /** The owner of a fresh object gives it up once handles to it are installed. */
  lemma GiveUp(s: State, s': State, q: Pid, o: ObjId)
    requires Inv(s) && Core(s', Free) && s'.acts == s.acts && s'.objs.Keys == s.objs.Keys && o in s.objs
    requires Owning(ActOf(s, q), o) && s'.objs[o].refcount > 0
    requires forall x :: x in s.objs && x != o ==> s'.objs[x].refcount == s.objs[x].refcount
    ensures Inv(SetAct(s', q, Idle))
  {
    assert Owned(s, o);
    assert q in Owners(s.acts, o);
    forall x | x in s'.objs ensures OwnersAfter(s', q, Idle, x) == One(s'.objs[x].refcount == 0) {
      assert Owned(s, x);
    }
    MoveAct(s', q, Idle);
  }

  lemma RedirectInv(s: State, p: Pid, owner: Pid, child: Pid, slot: int, fd: int)
    requires Inv(s) && ActOf(s, p).Idle?
    ensures Inv(Redirect(s, p, owner, child, slot, fd).0)
  {
    if 0 <= slot < NPROC_HANDLES && 0 <= fd < NPROC_HANDLES && owner in s.tables {
      EnsureTableInv(s, child);
      var s0 := EnsureTable(s, child);
      if s0.tables[owner][fd].Used? {
        OverwriteInv(s0, p, child, slot, owner, fd);
      }
    }
  }

  /** A slot is overwritten with a copy of a live handle. */
  lemma OverwriteInv(s: State, p: Pid, child: Pid, slot: nat, owner: Pid, fd: nat)
    requires Inv(s) && ActOf(s, p).Idle? && child in s.tables && owner in s.tables
    requires slot < NPROC_HANDLES && fd < NPROC_HANDLES && s.tables[owner][fd].Used?
    ensures var src, prev := s.tables[owner][fd], s.tables[child][slot];
            var s1 := Put(s, child, slot, src.obj, src.rights);
            Inv(if prev.Free? then s1 else Settle(Forget(s1, prev.obj, prev.rights), p, prev.obj))
  {
    var src, prev := s.tables[owner][fd], s.tables[child][slot];
    NamedHasRef(s, owner, fd);
    assert SlotOk(s, src);
    PutCore(s, child, slot, src.obj, src.rights);
    PutShape(s, child, slot, src.obj, src.rights);
    var s1 := Put(s, child, slot, src.obj, src.rights);
    forall x | x in s1.objs ensures Owned(s1, x) {
      assert Owned(s, x);
    }
    if prev.Used? {
      NamedHasRef(s, child, slot);
      ForgetAfterPut(s, s1, p, prev);
    }
  }

  lemma ForgetAfterPut(s: State, s1: State, p: Pid, prev: Slot)
    requires prev.Used? && prev.obj in s.objs && s.objs[prev.obj].refcount >= 1
    requires Core(s1, prev) && ActOf(s1, p).Idle? && s1.acts == s.acts && Inv(s)
    requires forall x :: x in s1.objs ==> Owned(s1, x)
    ensures Inv(Settle(Forget(s1, prev.obj, prev.rights), p, prev.obj))
  {
    assert SlotOk(s1, prev);
    ForgetCore(s1, prev.obj, prev.rights);
    ForgetShape(s1, prev.obj, prev.rights);
    var s2 := Forget(s1, prev.obj, prev.rights);
    assert Owned(s, prev.obj);
    forall x | x in s2.objs && x != prev.obj ensures Owned(s2, x) {
      assert Owned(s1, x);
    }
    SettleInv(s2, p, prev.obj);
  }

  // ----- teardown --------------------------------------------------------------------

  /** One round of the teardown loop. */
  function DestroySlot(s: State, p: Pid, i: nat): State
    requires p in s.tables && i < NPROC_HANDLES && s.tables[p][i].Used?
  {
    var o := s.tables[p][i].obj;
    var s1 := Drop(s, p, i);
    if Obj(s1, o).refcount <= 0 then FreeObj(s1, o) else s1
  }

  lemma DestroySlotInv(s: State, p: Pid, i: nat)
    requires Inv(s) && p in s.tables && i < NPROC_HANDLES && s.tables[p][i].Used?
    ensures Inv(DestroySlot(s, p, i))
    ensures var r := DestroySlot(s, p, i);
            r.tables == s.tables[p := s.tables[p][i := Free]] && r.acts == s.acts && r.lost == s.lost
  {
    hide Core, Owners, Drop;
    var o := s.tables[p][i].obj;
    NamedHasRef(s, p, i);
    DropCore(s, p, i);
    var s1 := Drop(s, p, i);
    assert Owned(s, o);
    assert Owners(s.acts, o) == {};
    forall x | x in s1.objs && x != o ensures Owned(s1, x) {
      assert Owned(s, x);
    }
    if s1.objs[o].refcount == 0 {
      FreeInv(s1, o);
    } else {
      forall x | x in s1.objs ensures Owned(s1, x) {}
    }
  }

  lemma {:induction false} DestroyUnfold(s: State, p: Pid, i: nat)
    requires p in s.tables && i < NPROC_HANDLES
    ensures s.tables[p][i].Free? ==> DestroyFrom(s, p, i) == DestroyFrom(s, p, i + 1)
    ensures s.tables[p][i].Used? ==>
              p in DestroySlot(s, p, i).tables && DestroyFrom(s, p, i) == DestroyFrom(DestroySlot(s, p, i), p, i + 1)
  {
  }

  lemma DestroyEnd(s: State, p: Pid)
    requires p in s.tables
    ensures DestroyFrom(s, p, NPROC_HANDLES) == s
  {
  }

  lemma {:induction false} DestroyFromInv(s: State, p: Pid, i: nat)
    requires Inv(s) && p in s.tables && i <= NPROC_HANDLES
    requires forall j :: 0 <= j < i ==> s.tables[p][j].Free?
    ensures var r := DestroyFrom(s, p, i);
            && Inv(r) && p in r.tables && r.tables[p] == EmptyTable() && r.tables - {p} == s.tables - {p}
            && r.acts == s.acts && r.lost == s.lost
    decreases NPROC_HANDLES - i
  {
    hide Inv, DestroySlot, DestroyFrom;
    if i == NPROC_HANDLES {
      DestroyEnd(s, p);
      return;
    }
    DestroyUnfold(s, p, i);
    if s.tables[p][i].Free? {
      DestroyFromInv(s, p, i + 1);
    } else {
      DestroySlotInv(s, p, i);
      DestroyFromInv(DestroySlot(s, p, i), p, i + 1);
    }
  }

  lemma DestroyTableInv(s: State, p: Pid)
    requires Inv(s)
    ensures Inv(DestroyTable(s, p))
    ensures var r := DestroyTable(s, p); r.tables == s.tables - {p} && r.acts == s.acts && r.lost == s.lost
  {
    if p in s.tables {
      DestroyFromInv(s, p, 0);
      var s1 := DestroyFrom(s, p, 0);
      var s' := DestroyTable(s, p);
      forall o, need ensures Holders(s'.tables, o, need) == Holders(s1.tables, o, need) {}
      forall q, j | q in s'.tables && 0 <= j < NPROC_HANDLES ensures SlotOk(s1, s'.tables[q][j]) {
        assert SlotOk(s1, s1.tables[q][j]);
      }
      TablesInv(s1, s');
    } else {
      assert s.tables - {p} == s.tables;
    }
  }
}
