/** Every critical section keeps the invariant. */
module HandleSteps {
  import opened Basics
  import opened HandleSpec
  import opened HandleInvariant

  // ----- consequences of exact counts ------------------------------------------------

  lemma SlotCounts(s: State, p: Pid, i: nat, need: Rights)
    requires p in s.tables && i < NPROC_HANDLES && s.tables[p][i].Used? && need <= s.tables[p][i].rights
    ensures |Holders(s.tables, s.tables[p][i].obj, need)| >= 1
  {
    assert (p, i as int) in Holders(s.tables, s.tables[p][i].obj, need);
  }

  /** What a slot names has a reference. */
  lemma NamedHasRef(s: State, p: Pid, i: nat)
    requires Core(s, Free) && p in s.tables && i < NPROC_HANDLES && s.tables[p][i].Used?
    ensures s.tables[p][i].obj in s.objs && s.objs[s.tables[p][i].obj].refcount >= 1
  {
    assert SlotOk(s, s.tables[p][i]);
    SlotCounts(s, p, i, {});
    assert Exact(s, s.tables[p][i].obj, Free);
  }

  lemma PinHasRef(s: State, p: Pid)
    requires Core(s, Free) && ActOf(s, p).Pinned?
    ensures s.acts[p].obj in s.objs && s.objs[s.acts[p].obj].refcount >= 1
  {
    assert ActOk(s, p, s.acts[p]);
    assert p in Pinners(s.acts, s.acts[p].obj);
    assert Exact(s, s.acts[p].obj, Free);
  }

  /** The same two facts for callers that hold the whole invariant. */
  lemma NamedLive(s: State, p: Pid, i: nat)
    requires Inv(s) && p in s.tables && i < NPROC_HANDLES && s.tables[p][i].Used?
    ensures s.tables[p][i].obj in s.objs && s.objs[s.tables[p][i].obj].refcount >= 1
  {
    NamedHasRef(s, p, i);
  }

  lemma PinLive(s: State, p: Pid)
    requires Inv(s) && ActOf(s, p).Pinned?
    ensures s.acts[p].obj in s.objs && s.objs[s.acts[p].obj].refcount >= 1
  {
    PinHasRef(s, p);
  }

  /** What a process owns has no reference. */
  lemma OwnedHasNoRef(s: State, p: Pid)
    requires Inv(s) && IsLocal(ActOf(s, p))
    ensures s.acts[p].obj in s.objs && s.objs[s.acts[p].obj].refcount == 0
  {
    assert ActOk(s, p, s.acts[p]);
    assert p in Owners(s.acts, s.acts[p].obj);
    assert Owned(s, s.acts[p].obj);
  }

  /** Nothing names an object whose count is zero, and it is not published. */
  lemma NoRefNoName(s: State, o: ObjId)
    requires Core(s, Free) && o in s.objs && s.objs[o].refcount == 0
    ensures Holders(s.tables, o, {}) == {} && Pinners(s.acts, o) == {} && Lost(s.lost, o, {}) == 0
    ensures forall i :: 0 <= i < PORT_TABLE_MAX ==> s.ports[i] != Some(o)
    ensures s.objs[o].readers == 0 && s.objs[o].writers == 0
  {
    assert Exact(s, o, Free);
    assert Holders(s.tables, o, {Read}) <= Holders(s.tables, o, {});
    assert Holders(s.tables, o, {Write}) <= Holders(s.tables, o, {});
    LostMono(s.lost, o, {Read});
    LostMono(s.lost, o, {Write});
    forall i | 0 <= i < PORT_TABLE_MAX ensures s.ports[i] != Some(o) {
      assert EntryOk(s, s.ports[i]);
    }
  }

  // ----- moving between the points of a system call ------------------------------------

  /** Owners after p's act becomes a. */
  ghost function OwnersAfter(s: State, p: Pid, a: Act, o: ObjId): int {
    |Owners(s.acts, o)| - One(Owning(ActOf(s, p), o)) + One(Owning(a, o))
  }

  lemma MoveAct(s: State, p: Pid, a: Act)
    requires Core(s, Free) && !ActOf(s, p).Pinned? && !a.Pinned? && ActOk(s, p, a)
    requires forall o :: o in s.objs ==> OwnersAfter(s, p, a, o) == One(s.objs[o].refcount == 0)
    ensures Inv(SetAct(s, p, a))
  {
    ActCore(s, p, a);
    forall o | o in s.objs ensures Owned(SetAct(s, p, a), o) {
      OwnerChange(s.acts, p, a, o);
    }
  }

  /** After a reference to o went away, Settle gives an unreferenced o an owner. */
  lemma SettleInv(s: State, p: Pid, o: ObjId)
    requires Core(s, Free) && ActOf(s, p).Idle? && o in s.objs && s.objs[o].refcount >= 0
    requires Owners(s.acts, o) == {}
    requires forall x :: x in s.objs && x != o ==> Owned(s, x)
    ensures Inv(Settle(s, p, o))
  {
    if s.objs[o].refcount == 0 {
      forall x | x in s.objs ensures OwnersAfter(s, p, Freeing(o), x) == One(s.objs[x].refcount == 0) {
        if x != o { assert Owned(s, x); }
      }
      MoveAct(s, p, Freeing(o));
    } else {
      forall x | x in s.objs ensures Owned(s, x) {}
    }
  }

  lemma PinShape(s: State, p: Pid, a: Act, o: ObjId, delta: int)
    requires o in s.objs
    ensures var s' := SetAct(AddRef(s, o, delta), p, a);
            && s'.objs.Keys == s.objs.Keys && s'.acts == s.acts[p := a] && s'.live == s.live && s'.lost == s.lost
            && s'.tables == s.tables && s'.ports == s.ports
            && (forall x :: x in s.objs ==>
                  s'.objs[x] == s.objs[x].(refcount := s.objs[x].refcount + if x == o then delta else 0))
  {
  }

  lemma PinExact(s: State, s': State, p: Pid, a: Act, x: ObjId)
    requires x in s.objs && x in s'.objs && Exact(s, x, Free)
    requires s'.acts == s.acts[p := a] && s'.tables == s.tables && s'.lost == s.lost
    requires s'.objs[x] == s.objs[x].(refcount := s.objs[x].refcount
                             + One(PinnedOn(a, x)) - One(PinnedOn(ActOf(s, p), x)))
    ensures Exact(s', x, Free)
  {
    PinChange(s.acts, p, a, x);
  }

  /** Taking or dropping a pin along with its count. */
  lemma PinCore(s: State, p: Pid, a: Act, o: ObjId, delta: int)
    requires Core(s, Free) && o in s.objs && ActOk(s, p, a)
    requires (delta == 1 && PinnedOn(a, o) && !ActOf(s, p).Pinned?) || (delta == -1 && a == Idle && PinnedOn(ActOf(s, p), o))
    ensures Core(SetAct(AddRef(s, o, delta), p, a), Free)
  {
    hide Exact, ActOk, EntryOk;
    var s' := SetAct(AddRef(s, o, delta), p, a);
    PinShape(s, p, a, o, delta);
    forall x | x in s'.objs ensures Exact(s', x, Free) {
      PinExact(s, s', p, a, x);
    }
    forall t ensures LiveCount(s', t) == |OfType(s'.objs, t)| {
      assert OfType(s'.objs, t) == OfType(s.objs, t);
      assert LiveCount(s', t) == LiveCount(s, t);
    }
    PinFrame(s, s', p, a, o);
  }

  lemma PinFrame(s: State, s': State, p: Pid, a: Act, o: ObjId)
    requires Core(s, Free) && ActOk(s, p, a) && !IsLocal(a) && !a.PortSlot?
    requires s'.acts == s.acts[p := a] && s'.tables == s.tables && s'.ports == s.ports
    requires s'.objs.Keys == s.objs.Keys
    requires forall x :: x in s.objs ==> SameIdentity(s.objs[x], s'.objs[x]) && s'.objs[x].readers == s.objs[x].readers
    ensures forall q :: q in s'.acts ==> ActOk(s', q, s'.acts[q])
    ensures forall q, j :: q in s'.tables && 0 <= j < NPROC_HANDLES ==> SlotOk(s', s'.tables[q][j])
    ensures forall j :: 0 <= j < PORT_TABLE_MAX ==> EntryOk(s', s'.ports[j])
  {
    forall q | q in s'.acts ensures ActOk(s', q, s'.acts[q]) {
      if q != p { assert ActOk(s, q, s.acts[q]); }
    }
    forall q, j | q in s'.tables && 0 <= j < NPROC_HANDLES ensures SlotOk(s', s'.tables[q][j]) {
      assert SlotOk(s, s.tables[q][j]);
    }
    forall j | 0 <= j < PORT_TABLE_MAX ensures EntryOk(s', s'.ports[j]) {
      assert EntryOk(s, s.ports[j]);
    }
  }

  // ----- installing ---------------------------------------------------------------------

  lemma InstallCore(s: State, p: Pid, o: ObjId, rights: Rights)
    requires Core(s, Free) && o in s.objs && rights <= ALL
    ensures var (s', h) := Install(s, p, o, rights);
            && Core(s', Free) && SameBut(s, s', o) && s'.ports == s.ports
            && (h < 0 ==> s' == s)
            && (h >= 0 ==> s'.objs[o].refcount == s.objs[o].refcount + 1
                           && p in s.tables && h < NPROC_HANDLES && s.tables[p][h].Free?
                           && s'.tables == s.tables[p := s.tables[p][h := Used(o, rights)]]
                           && s'.objs[o].readers == s.objs[o].readers + One(HasEndpoints(s.objs[o].typ) && Read in rights))
  {
    if p in s.tables && FirstFree(s.tables[p], 0) < NPROC_HANDLES {
      PutShape(s, p, FirstFree(s.tables[p], 0), o, rights);
      PutCore(s, p, FirstFree(s.tables[p], 0), o, rights);
    }
  }

  /** One more handle to something that already has a reference. */
  lemma InstallInv(s: State, p: Pid, o: ObjId, rights: Rights)
    requires Inv(s) && o in s.objs && s.objs[o].refcount >= 1 && rights <= ALL
    ensures Inv(Install(s, p, o, rights).0)
  {
    InstallCore(s, p, o, rights);
    var s' := Install(s, p, o, rights).0;
    forall x | x in s'.objs ensures Owned(s', x) {
      assert Owned(s, x);
    }
  }

  /** The owner of a fresh object gives it up after n >= 1 installs, or keeps it
      for freeing after none. */
  lemma PublishLocal(s: State, s': State, q: Pid, o: ObjId, a: Act)
    requires Inv(s) && Core(s', Free) && SameBut(s, s', o) && o in s.objs
    requires Owning(ActOf(s, q), o) && s'.objs[o].refcount >= 0
    requires a == if s'.objs[o].refcount > 0 then Idle else Freeing(o)
    ensures Inv(SetAct(s', q, a))
  {
    assert s'.objs[o].refcount == 0 ==> ActOk(s', q, a);
    hide Core;
    assert Owned(s, o);
    assert q in Owners(s.acts, o);
    forall x | x in s'.objs ensures OwnersAfter(s', q, a, x) == One(s'.objs[x].refcount == 0) {
      assert Owned(s, x);
    }
    MoveAct(s', q, a);
  }

  lemma InstallNewInv(s: State, p: Pid, rights: Rights)
    requires Inv(s) && ActOf(s, p).Creating?
    ensures Inv(InstallNew(s, p, rights).0)
  {
    hide Core, Install;
    OwnedHasNoRef(s, p);
    var o := s.acts[p].obj;
    InstallCore(s, p, o, rights * ALL);
    var (s1, h) := Install(s, p, o, rights * ALL);
    PublishLocal(s, s1, p, o, if h < 0 then Freeing(o) else Idle);
  }

  lemma InstallPipeInv(s: State, p: Pid)
    requires Inv(s) && ActOf(s, p).Creating?
    ensures Inv(InstallPipe(s, p).0)
  {
    hide Core, Install;
    OwnedHasNoRef(s, p);
    var o := s.acts[p].obj;
    InstallCore(s, p, o, PIPE_READ_END);
    var (s1, rfd) := Install(s, p, o, PIPE_READ_END);
    if rfd < 0 {
      PublishLocal(s, s1, p, o, Freeing(o));
    } else {
      InstallCore(s1, p, o, PIPE_WRITE_END);
      var (s2, wfd) := Install(s1, p, o, PIPE_WRITE_END);
      PublishLocal(s, s2, p, o, Idle);
    }
  }

  lemma DupInv(s: State, p: Pid, h: int, r: Rights)
    requires Inv(s)
    ensures Inv(Dup(s, p, h, r).0)
  {
    if ValidHandle(s, p, h) {
      NamedHasRef(s, p, h);
      InstallInv(s, p, s.tables[p][h].obj, r * ALL * s.tables[p][h].rights);
    }
  }

  lemma GrantInv(s: State, p: Pid, target: Pid, v: Verdict, h: int, r: Rights)
    requires Inv(s)
    ensures Inv(Grant(s, p, target, v, h, r).0)
  {
    if ValidHandle(s, p, h) {
      NamedHasRef(s, p, h);
      InstallInv(s, target, s.tables[p][h].obj, r * ALL * s.tables[p][h].rights);
    }
  }

  // ----- closing, pins, freeing -------------------------------------------------------------

  lemma CloseInv(s: State, p: Pid, h: int)
    requires Inv(s) && ActOf(s, p).Idle?
    ensures Inv(Close(s, p, h).0)
  {
    if ValidHandle(s, p, h) {
      var o := s.tables[p][h].obj;
      NamedHasRef(s, p, h);
      DropCore(s, p, h);
      var s' := Drop(s, p, h);
      assert Owned(s, o);
      forall x | x in s'.objs && x != o ensures Owned(s', x) {
        assert Owned(s, x);
      }
      SettleInv(s', p, o);
    }
  }

  lemma PinInv(s: State, p: Pid, h: int, need: Rights)
    requires Inv(s) && ActOf(s, p).Idle?
    ensures Inv(Pin(s, p, h, need).0)
  {
    if ValidHandle(s, p, h) && need <= s.tables[p][h].rights {
      var o := s.tables[p][h].obj;
      NamedHasRef(s, p, h);
      PinCore(s, p, Pinned(o, need), o, 1);
      var s' := Pin(s, p, h, need).0;
      forall x | x in s'.objs ensures Owned(s', x) {
        assert Owned(s, x);
        OwnerChange(s.acts, p, Pinned(o, need), x);
      }
    }
  }

  lemma UnpinInv(s: State, p: Pid)
    requires Inv(s) && ActOf(s, p).Pinned?
    ensures Inv(Unpin(s, p))
  {
    var o := s.acts[p].obj;
    PinHasRef(s, p);
    PinCore(s, p, Idle, o, -1);
    var s' := SetAct(AddRef(s, o, -1), p, Idle);
    forall x ensures |Owners(s'.acts, x)| == |Owners(s.acts, x)| {
      OwnerChange(s.acts, p, Idle, x);
    }
    assert Owned(s, o);
    forall x | x in s'.objs && x != o ensures Owned(s', x) {
      assert Owned(s, x);
    }
    SettleInv(s', p, o);
  }

  lemma FreeExact(s: State, o: ObjId)
    requires Core(s, Free) && o in s.objs && s.objs[o].refcount == 0
    ensures var s' := FreeObj(s, o); LostOk(s') && forall x :: x in s'.objs ==> Exact(s', x, Free)
  {
    var s' := FreeObj(s, o);
    NoRefNoName(s, o);
    LostIff(s.lost, o, {});
    forall i | 0 <= i < |s'.lost| ensures s'.lost[i].Used? && s'.lost[i].obj in s'.objs {
      assert !Holds(s.lost[i], o, {});
    }
    hide Holders, Pinners, Lost;
    forall x | x in s'.objs ensures Exact(s', x, Free) {
      assert Exact(s, x, Free);
    }
  }

  /** Freeing an object that nothing refers to and nobody owns. */
  lemma FreeInv(s: State, o: ObjId)
    requires Core(s, Free) && o in s.objs && s.objs[o].refcount == 0 && Owners(s.acts, o) == {}
    requires forall x :: x in s.objs && x != o ==> Owned(s, x)
    ensures Inv(FreeObj(s, o))
  {
    var s' := FreeObj(s, o);
    NoRefNoName(s, o);
    FreeExact(s, o);
    FreeNames(s, o);
    FreeLive(s, o);
    hide Exact, LostOk, SlotOk, ActOk, EntryOk;
    forall x | x in s'.objs ensures Owned(s', x) {
      assert Owned(s, x);
    }
  }

  /** No slot, call or entry names what is freed. */
  lemma FreeNames(s: State, o: ObjId)
    requires Core(s, Free) && o in s.objs && s.objs[o].refcount == 0 && Owners(s.acts, o) == {}
    ensures var s' := FreeObj(s, o);
            && (forall q, j :: q in s'.tables && 0 <= j < NPROC_HANDLES ==> SlotOk(s', s'.tables[q][j]))
            && (forall q :: q in s'.acts ==> ActOk(s', q, s'.acts[q]))
            && (forall j :: 0 <= j < PORT_TABLE_MAX ==> EntryOk(s', s'.ports[j]))
  {
    NoRefNoName(s, o);
    FreeSlots(s, o);
    hide Exact, LostOk, Holders;
    var s' := FreeObj(s, o);
    forall q | q in s'.acts ensures ActOk(s', q, s'.acts[q]) {
      assert ActOk(s, q, s.acts[q]);
      assert q !in Owners(s.acts, o) && q !in Pinners(s.acts, o);
    }
    forall j | 0 <= j < PORT_TABLE_MAX ensures EntryOk(s', s'.ports[j]) {
      assert EntryOk(s, s.ports[j]);
    }
  }

  lemma FreeSlots(s: State, o: ObjId)
    requires Core(s, Free) && o in s.objs && Holders(s.tables, o, {}) == {}
    ensures var s' := FreeObj(s, o); forall q, j :: q in s'.tables && 0 <= j < NPROC_HANDLES ==> SlotOk(s', s'.tables[q][j])
  {
    var s' := FreeObj(s, o);
    hide Exact, LostOk;
    forall q, j | q in s'.tables && 0 <= j < NPROC_HANDLES ensures SlotOk(s', s'.tables[q][j]) {
      assert SlotOk(s, s.tables[q][j]);
      assert Holds(s.tables[q][j], o, {}) ==> (q, j) in Holders(s.tables, o, {});
    }
  }

  lemma FreeLive(s: State, o: ObjId)
    requires o in s.objs && forall t :: LiveCount(s, t) == |OfType(s.objs, t)|
    ensures var s' := FreeObj(s, o); forall t :: LiveCount(s', t) == |OfType(s'.objs, t)|
  {
    var s' := FreeObj(s, o);
    forall t ensures LiveCount(s', t) == |OfType(s'.objs, t)| {
      assert OfType(s'.objs, t) == OfType(s.objs, t) - {o};
      Without(OfType(s.objs, t), o);
    }
  }

  lemma ReleaseOthers(s: State, p: Pid)
    requires Inv(s) && ActOf(s, p).Freeing?
    ensures var s1 := SetAct(s, p, Idle); forall x :: x in s1.objs && x != s.acts[p].obj ==> Owned(s1, x)
  {
    hide Core, Owners;
    var s1 := SetAct(s, p, Idle);
    forall x | x in s1.objs && x != s.acts[p].obj ensures Owned(s1, x) {
      assert Owned(s, x);
      OwnerChange(s.acts, p, Idle, x);
    }
  }

  lemma ReleaseOwner(s: State, p: Pid)
    requires Inv(s) && ActOf(s, p).Freeing?
    ensures var s1 := SetAct(s, p, Idle); Core(s1, Free) && Owners(s1.acts, s.acts[p].obj) == {}
  {
    var o := s.acts[p].obj;
    OwnedHasNoRef(s, p);
    ActCore(s, p, Idle);
    assert Owned(s, o);
    hide Core;
    OwnerChange(s.acts, p, Idle, o);
  }

  lemma ReleaseInv(s: State, p: Pid)
    requires Inv(s) && ActOf(s, p).Freeing?
    ensures Inv(Release(s, p))
  {
    hide Inv, Core, Owned, Owners, FreeObj;
    OwnedHasNoRef(s, p);
    ReleaseOwner(s, p);
    ReleaseOthers(s, p);
    FreeInv(SetAct(s, p, Idle), s.acts[p].obj);
    ReleaseShape(s, p);
  }

  lemma ReleaseShape(s: State, p: Pid)
    requires ActOf(s, p).Freeing?
    ensures Release(s, p) == FreeObj(SetAct(s, p, Idle), s.acts[p].obj)
  {
  }

  /** A fresh object, owned by the process that allocated it. */
  lemma AllocInv(s: State, p: Pid, o: ObjId, k: KObject, a: Act)
    requires Inv(s) && o !in s.objs && k.refcount == 0 && k.readers == 0 && k.writers == 0
    requires !Owning(ActOf(s, p), o) && !IsLocal(ActOf(s, p)) && !ActOf(s, p).Pinned?
    requires Owning(a, o) && ActOk(AllocObj(s, o, k), p, a)
    ensures Inv(SetAct(AllocObj(s, o, k), p, a))
  {
    var s1 := AllocObj(s, o, k);
    AllocCore(s, o, k);
    NoOwner(s, o);
    hide Core, Owners;
    forall x | x in s1.objs ensures OwnersAfter(s1, p, a, x) == One(s1.objs[x].refcount == 0) {
      if x != o { assert Owned(s, x); }
    }
    MoveAct(s1, p, a);
  }

  lemma NoOwner(s: State, o: ObjId)
    requires Core(s, Free) && o !in s.objs
    ensures Owners(s.acts, o) == {}
  {
    forall q | q in s.acts ensures !Owning(s.acts[q], o) {
      assert ActOk(s, q, s.acts[q]);
    }
  }

  lemma AllocCore(s: State, o: ObjId, k: KObject)
    requires Core(s, Free) && o !in s.objs && k.refcount == 0 && k.readers == 0 && k.writers == 0
    ensures Core(AllocObj(s, o, k), Free)
  {
    var s' := AllocObj(s, o, k);
    NothingNames(s, o);
    forall x | x in s'.objs ensures Exact(s', x, Free) {
      if x != o { assert Exact(s, x, Free); }
    }
    forall q | q in s'.acts ensures ActOk(s', q, s'.acts[q]) {
      assert ActOk(s, q, s.acts[q]);
    }
    forall q, j | q in s'.tables && 0 <= j < NPROC_HANDLES ensures SlotOk(s', s'.tables[q][j]) {
      assert SlotOk(s, s.tables[q][j]);
    }
    forall j | 0 <= j < PORT_TABLE_MAX ensures EntryOk(s', s'.ports[j]) {
      assert EntryOk(s, s.ports[j]);
    }
    AllocLive(s, o, k);
  }

  lemma NothingNames(s: State, o: ObjId)
    requires Core(s, Free) && o !in s.objs
    ensures Holders(s.tables, o, {}) == {} && Holders(s.tables, o, {Read}) == {}
    ensures Holders(s.tables, o, {Write}) == {} && Pinners(s.acts, o) == {}
    ensures Lost(s.lost, o, {}) == 0 && Lost(s.lost, o, {Read}) == 0 && Lost(s.lost, o, {Write}) == 0
  {
    LostIff(s.lost, o, {});
    LostMono(s.lost, o, {Read});
    LostMono(s.lost, o, {Write});
    forall q, j | q in s.tables && 0 <= j < NPROC_HANDLES ensures !Holds(s.tables[q][j], o, {}) {
      assert SlotOk(s, s.tables[q][j]);
    }
    forall q | q in s.acts ensures !PinnedOn(s.acts[q], o) {
      assert ActOk(s, q, s.acts[q]);
    }
  }

  lemma AllocLive(s: State, o: ObjId, k: KObject)
    requires o !in s.objs && forall t :: LiveCount(s, t) == |OfType(s.objs, t)|
    ensures var s' := AllocObj(s, o, k); forall t :: LiveCount(s', t) == |OfType(s'.objs, t)|
  {
    var s' := AllocObj(s, o, k);
    forall t ensures LiveCount(s', t) == |OfType(s'.objs, t)| {
      assert OfType(s.objs, t) == OfType(s'.objs, t) - {o};
      Without(OfType(s'.objs, t), o);
    }
  }
}
