/** The invariant of the object manager and the two kinds of edit every
    critical section is made of: a handle slot changes, or a process moves to
    another point of its system call. */
module HandleInvariant {
  import opened Basics
  import opened HandleSpec

  // ----- counting ---------------------------------------------------------------

  predicate Holds(slot: Slot, o: ObjId, need: Rights) {
    slot.Used? && slot.obj == o && need <= slot.rights
  }

  function One(b: bool): nat {
    if b then 1 else 0
  }

  /** The slots, over all tables, that name o with at least the rights `need`. */
  ghost function Holders(tables: map<Pid, Table>, o: ObjId, need: Rights): set<(Pid, int)> {
    set p, i | p in tables && 0 <= i < NPROC_HANDLES && Holds(tables[p][i], o, need) :: (p, i)
  }

  ghost function Pinners(acts: map<Pid, Act>, o: ObjId): set<Pid> {
    set p | p in acts && PinnedOn(acts[p], o)
  }

  predicate Owning(a: Act, o: ObjId) {
    match a
    case Creating(x) => x == o
    case Freeing(x) => x == o
    case PortReady(x, _, _, _) => x == o
    case _ => false
  }

  ghost function Owners(acts: map<Pid, Act>, o: ObjId): set<Pid> {
    set p | p in acts && Owning(acts[p], o)
  }

  ghost function OfType(objs: map<ObjId, KObject>, t: ObjType): set<ObjId> {
    set o | o in objs && objs[o].typ == t
  }

  /** The overwritten handles to o with at least the rights `need`. */
  function Lost(lost: seq<Slot>, o: ObjId, need: Rights): (n: nat) {
    if lost == [] then 0
    else Lost(lost[..|lost| - 1], o, need) + One(Holds(lost[|lost| - 1], o, need))
  }

  lemma LostMore(lost: seq<Slot>, slot: Slot, o: ObjId, need: Rights)
    ensures Lost(lost + Displaced(slot), o, need) == Lost(lost, o, need) + One(Holds(slot, o, need))
  {
    if slot.Used? {
      assert (lost + [slot])[..|lost|] == lost;
    } else {
      assert lost + [] == lost;
    }
  }

  /** Asking for fewer rights finds at least as many. */
  lemma {:induction false} LostMono(lost: seq<Slot>, o: ObjId, need: Rights)
    ensures Lost(lost, o, need) <= Lost(lost, o, {})
  {
    if lost != [] {
      LostMono(lost[..|lost| - 1], o, need);
    }
  }

  /** Something was lost if and only if some lost handle names it. */
  lemma {:induction false} LostIff(lost: seq<Slot>, o: ObjId, need: Rights)
    ensures Lost(lost, o, need) > 0 <==> exists i :: 0 <= i < |lost| && Holds(lost[i], o, need)
  {
    if lost != [] {
      var n := |lost| - 1;
      LostIff(lost[..n], o, need);
      if Holds(lost[n], o, need) {
      } else if i :| 0 <= i < |lost| && Holds(lost[i], o, need) {
        assert lost[..n][i] == lost[i];
      }
    }
  }

  lemma SlotChange(tables: map<Pid, Table>, p: Pid, i: nat, slot: Slot, o: ObjId, need: Rights)
    requires p in tables && i < NPROC_HANDLES
    ensures var tables' := tables[p := tables[p][i := slot]];
            |Holders(tables', o, need)| + One(Holds(tables[p][i], o, need))
            == |Holders(tables, o, need)| + One(Holds(slot, o, need))
  {
    var tables' := tables[p := tables[p][i := slot]];
    var before, after := Holders(tables, o, need), Holders(tables', o, need);
    assert before - {(p, i)} == after - {(p, i)};
    assert (p, i) in before <==> Holds(tables[p][i], o, need);
    assert (p, i) in after <==> Holds(slot, o, need);
    Without(before, (p, i));
    Without(after, (p, i));
  }

  lemma Without<T>(s: set<T>, x: T)
    ensures |s| == |s - {x}| + One(x in s)
  {
    if x !in s {
      assert s - {x} == s;
    }
  }

  /** Sets that agree but for p. */
  lemma SetSwap<T>(a: set<T>, b: set<T>, p: T)
    requires forall q :: q != p ==> (q in a <==> q in b)
    ensures |b| + One(p in a) == |a| + One(p in b)
  {
    assert a - {p} == b - {p};
    Without(a, p);
    Without(b, p);
  }

  lemma PinChange(acts: map<Pid, Act>, p: Pid, a: Act, o: ObjId)
    ensures |Pinners(acts[p := a], o)| + One(p in acts && PinnedOn(acts[p], o))
            == |Pinners(acts, o)| + One(PinnedOn(a, o))
  {
    var before, after := Pinners(acts, o), Pinners(acts[p := a], o);
    assert forall q :: q != p ==> (q in before <==> q in after);
    SetSwap(before, after, p);
  }

  lemma OwnerChange(acts: map<Pid, Act>, p: Pid, a: Act, o: ObjId)
    ensures |Owners(acts[p := a], o)| + One(p in acts && Owning(acts[p], o))
            == |Owners(acts, o)| + One(Owning(a, o))
  {
    var before, after := Owners(acts, o), Owners(acts[p := a], o);
    hide Owning;
    assert forall q :: q != p ==> (q in before <==> q in after);
    SetSwap(before, after, p);
  }

  // ----- the invariant -----------------------------------------------------------

  /** The counts kept for o: the slots and pins that refer to it, and the handles
      that were overwritten.  `debt` is a handle that was taken out of its slot
      and is still to be counted down (Free: none). */
  ghost predicate Exact(s: State, o: ObjId, debt: Slot)
    requires o in s.objs
  {
    var k := s.objs[o];
    && k.refcount == |Holders(s.tables, o, {})| + |Pinners(s.acts, o)| + Lost(s.lost, o, {}) + One(Holds(debt, o, {}))
    && k.readers == (if HasEndpoints(k.typ) then Ends(s, o, Read) + One(Holds(debt, o, {Read})) else 0)
    && k.writers == (if HasEndpoints(k.typ) then Ends(s, o, Write) + One(Holds(debt, o, {Write})) else 0)
  }

  ghost function Ends(s: State, o: ObjId, right: Right): nat {
    |Holders(s.tables, o, {right})| + Lost(s.lost, o, {right})
  }

  /** What is counted for an overwritten handle is never freed. */
  ghost predicate LostOk(s: State) {
    forall i :: 0 <= i < |s.lost| ==> s.lost[i].Used? && s.lost[i].obj in s.objs
  }

  /** A slot names an allocated object, with rights handle_create can give. */
  ghost predicate SlotOk(s: State, slot: Slot) {
    slot.Used? ==> slot.obj in s.objs && slot.rights <= ALL
  }

  ghost predicate ActOk(s: State, p: Pid, a: Act) {
    && (a.Pinned? || IsLocal(a) ==> a.obj in s.objs)
    && (a.PortSlot? || a.PortReady? ==> Read in a.want && a.want <= ALL)
    && (a.Creating? ==> Obj(s, a.obj).typ != Port)
    && (a.PortReady? ==> Obj(s, a.obj).typ == Port && Obj(s, a.obj).name == Truncate(a.path))
  }

  /** A published port is allocated and has a receiver. */
  ghost predicate EntryOk(s: State, e: Option<ObjId>) {
    e.Some? ==> e.value in s.objs && s.objs[e.value].typ == Port && s.objs[e.value].readers > 0
  }

  ghost predicate Core(s: State, debt: Slot) {
    && SlotOk(s, debt) && LostOk(s)
    && (forall o :: o in s.objs ==> Exact(s, o, debt))
    && (forall p, i :: p in s.tables && 0 <= i < NPROC_HANDLES ==> SlotOk(s, s.tables[p][i]))
    && (forall p :: p in s.acts ==> ActOk(s, p, s.acts[p]))
    && (forall i :: 0 <= i < PORT_TABLE_MAX ==> EntryOk(s, s.ports[i]))
    && (forall i, j :: 0 <= i < j < PORT_TABLE_MAX && s.ports[i].Some? ==> s.ports[i] != s.ports[j])
    && (forall t :: LiveCount(s, t) == |OfType(s.objs, t)|)
  }

  /** An object nothing refers to is owned by exactly one process, which is about
      to install or to free it; an object something refers to, by none. */
  ghost predicate Owned(s: State, o: ObjId)
    requires o in s.objs
  {
    |Owners(s.acts, o)| == One(s.objs[o].refcount == 0)
  }

  ghost predicate Inv(s: State) {
    && Core(s, Free)
    && (forall o :: o in s.objs ==> Owned(s, o))
  }

  // ----- edits of a handle slot --------------------------------------------------------

  /** Only the three counts of o may differ between s and s'. */
  ghost predicate SameBut(s: State, s': State, o: ObjId) {
    && s'.objs.Keys == s.objs.Keys && s'.acts == s.acts && s'.live == s.live && s'.lost == s.lost
    && (forall x :: x in s.objs && x != o ==> s'.objs[x] == s.objs[x])
    && (o in s.objs ==> SameIdentity(s.objs[o], s'.objs[o]))
  }

  predicate SameIdentity(k: KObject, k': KObject) {
    k'.typ == k.typ && k'.name == k.name && k'.owner == k.owner && k'.queue == k.queue
  }

  /** An edit that leaves the counts exact keeps Core. */
  lemma Rebuild(s: State, s': State, o: ObjId, debt: Slot, debt': Slot)
    requires Core(s, debt) && SameBut(s, s', o) && SlotOk(s', debt')
    requires forall x :: x in s'.objs ==> Exact(s', x, debt')
    requires forall p, i :: p in s'.tables && 0 <= i < NPROC_HANDLES ==> SlotOk(s', s'.tables[p][i])
    requires forall i :: 0 <= i < PORT_TABLE_MAX && s'.ports[i] != s.ports[i] ==> s'.ports[i] == None
    requires forall i :: 0 <= i < PORT_TABLE_MAX && s'.ports[i] == Some(o) && o in s'.objs ==> s'.objs[o].readers > 0
    ensures Core(s', debt')
  {
    hide Exact;
    forall t ensures LiveCount(s', t) == |OfType(s'.objs, t)| {
      assert OfType(s'.objs, t) == OfType(s.objs, t);
      assert LiveCount(s', t) == LiveCount(s, t);
    }
    forall i | 0 <= i < PORT_TABLE_MAX ensures EntryOk(s', s'.ports[i]) {
      assert EntryOk(s, s.ports[i]);
    }
    forall p | p in s'.acts ensures ActOk(s', p, s'.acts[p]) {
      assert ActOk(s, p, s.acts[p]);
    }
  }

  /** A slot changed and o was counted along with it: the counts stay exact. */
  lemma SlotExact(s: State, s': State, p: Pid, i: nat, slot: Slot, x: ObjId)
    requires x in s.objs && x in s'.objs && Exact(s, x, Free) && s'.acts == s.acts && s'.lost == s.lost
    requires p in s.tables && i < NPROC_HANDLES && s'.tables == s.tables[p := s.tables[p][i := slot]]
    requires var k, k' := s.objs[x], s'.objs[x];
             && k'.typ == k.typ
             && k'.refcount == k.refcount + One(Holds(slot, x, {}))
             && k'.readers == k.readers + One(HasEndpoints(k.typ) && Holds(slot, x, {Read}))
             && k'.writers == k.writers + One(HasEndpoints(k.typ) && Holds(slot, x, {Write}))
    ensures Exact(s', x, s.tables[p][i])
  {
    SlotChange(s.tables, p, i, slot, x, {});
    SlotChange(s.tables, p, i, slot, x, {Read});
    SlotChange(s.tables, p, i, slot, x, {Write});
  }

  lemma PutShape(s: State, p: Pid, i: nat, o: ObjId, rights: Rights)
    requires p in s.tables && i < NPROC_HANDLES && o in s.objs
    ensures var s' := Put(s, p, i, o, rights);
            var k := s.objs[o];
            && SameBut(s, s', o) && s'.ports == s.ports
            && s'.tables == s.tables[p := s.tables[p][i := Used(o, rights)]]
            && s'.objs[o].refcount == k.refcount + 1
            && s'.objs[o].readers == k.readers + One(HasEndpoints(k.typ) && Read in rights)
            && s'.objs[o].writers == k.writers + One(HasEndpoints(k.typ) && Write in rights)
  {
  }

  lemma PutExact(s: State, p: Pid, i: nat, o: ObjId, rights: Rights)
    requires Core(s, Free) && p in s.tables && i < NPROC_HANDLES && o in s.objs
    ensures var s' := Put(s, p, i, o, rights); forall x :: x in s'.objs ==> Exact(s', x, s.tables[p][i])
  {
    var s' := Put(s, p, i, o, rights);
    PutShape(s, p, i, o, rights);
    hide Exact, Put;
    forall x | x in s'.objs ensures Exact(s', x, s.tables[p][i]) {
      SlotExact(s, s', p, i, Used(o, rights), x);
    }
  }

  /** Put keeps the counts exact; what the slot held before becomes the debt. */
  lemma PutCore(s: State, p: Pid, i: nat, o: ObjId, rights: Rights)
    requires Core(s, Free) && p in s.tables && i < NPROC_HANDLES
    requires o in s.objs && rights <= ALL
    ensures Core(Put(s, p, i, o, rights), s.tables[p][i])
  {
    var s' := Put(s, p, i, o, rights);
    PutShape(s, p, i, o, rights);
    PutExact(s, p, i, o, rights);
    hide Exact, Put;
    assert SlotOk(s, s.tables[p][i]);
    forall q, j | q in s'.tables && 0 <= j < NPROC_HANDLES ensures SlotOk(s', s'.tables[q][j]) {
      assert SlotOk(s, s.tables[q][j]);
    }
    forall j | 0 <= j < PORT_TABLE_MAX && s'.ports[j] == Some(o) ensures s'.objs[o].readers > 0 {
      assert EntryOk(s, s.ports[j]);
    }
    Rebuild(s, s', o, Free, s.tables[p][i]);
  }

  /** Writing the debt off: nothing counts the handle down any more. */
  lemma WriteOffCore(s: State, debt: Slot)
    requires Core(s, debt)
    ensures Core(s.(lost := s.lost + Displaced(debt)), Free)
  {
    var s' := s.(lost := s.lost + Displaced(debt));
    forall x | x in s'.objs ensures Exact(s', x, Free) {
      assert Exact(s, x, debt);
      LostMore(s.lost, debt, x, {});
      LostMore(s.lost, debt, x, {Read});
      LostMore(s.lost, debt, x, {Write});
    }
    forall i | 0 <= i < |s'.lost| ensures s'.lost[i].Used? && s'.lost[i].obj in s'.objs {
      if i < |s.lost| {
        assert s'.lost[i] == s.lost[i];
      }
    }
    WriteOffFrame(s, s');
  }

  lemma WriteOffFrame(s: State, s': State)
    requires s' == s.(lost := s'.lost)
    requires forall p, i :: p in s.tables && 0 <= i < NPROC_HANDLES ==> SlotOk(s, s.tables[p][i])
    requires forall p :: p in s.acts ==> ActOk(s, p, s.acts[p])
    requires forall i :: 0 <= i < PORT_TABLE_MAX ==> EntryOk(s, s.ports[i])
    requires forall t :: LiveCount(s, t) == |OfType(s.objs, t)|
    ensures forall p, i :: p in s'.tables && 0 <= i < NPROC_HANDLES ==> SlotOk(s', s'.tables[p][i])
    ensures forall p :: p in s'.acts ==> ActOk(s', p, s'.acts[p])
    ensures forall i :: 0 <= i < PORT_TABLE_MAX ==> EntryOk(s', s'.ports[i])
    ensures forall t :: LiveCount(s', t) == |OfType(s'.objs, t)|
  {
    forall p, i | p in s'.tables && 0 <= i < NPROC_HANDLES ensures SlotOk(s', s'.tables[p][i]) {
      assert SlotOk(s, s.tables[p][i]);
    }
    forall p | p in s'.acts ensures ActOk(s', p, s'.acts[p]) {
      assert ActOk(s, p, s.acts[p]);
    }
    forall i | 0 <= i < PORT_TABLE_MAX ensures EntryOk(s', s'.ports[i]) {
      assert EntryOk(s, s.ports[i]);
    }
    forall t ensures LiveCount(s', t) == |OfType(s'.objs, t)| {
      assert LiveCount(s', t) == LiveCount(s, t);
    }
  }

  lemma TakeOutCore(s: State, p: Pid, i: nat)
    requires Core(s, Free) && p in s.tables && i < NPROC_HANDLES
    ensures Core(SetSlot(s, p, i, Free), s.tables[p][i])
  {
    var s' := SetSlot(s, p, i, Free);
    var debt := s.tables[p][i];
    assert SlotOk(s, debt);
    forall x | x in s'.objs ensures Exact(s', x, debt) {
      SlotExact(s, s', p, i, Free, x);
    }
    forall q, j | q in s'.tables && 0 <= j < NPROC_HANDLES ensures SlotOk(s', s'.tables[q][j]) {
      assert SlotOk(s, s.tables[q][j]);
    }
    if debt.Used? {
      forall j | 0 <= j < PORT_TABLE_MAX && s'.ports[j] == Some(debt.obj) ensures s'.objs[debt.obj].readers > 0 {
        assert EntryOk(s, s.ports[j]);
      }
      Rebuild(s, s', debt.obj, Free, debt);
    } else {
      assert s'.tables[p] == s.tables[p];
      assert s'.tables == s.tables;
    }
  }

  lemma ForgetShape(s: State, o: ObjId, rights: Rights)
    requires o in s.objs
    ensures var s' := Forget(s, o, rights);
            var k := s.objs[o];
            && SameBut(s, s', o) && s'.tables == s.tables
            && s'.objs[o].refcount == k.refcount - 1
            && s'.objs[o].readers == k.readers - One(HasEndpoints(k.typ) && Read in rights)
            && s'.objs[o].writers == k.writers - One(HasEndpoints(k.typ) && Write in rights)
            && s'.ports == if k.typ == Port && Read in rights && k.readers == 1 then Unpublish(s.ports, o) else s.ports
  {
  }

  lemma ForgetExact(s: State, o: ObjId, rights: Rights)
    requires Core(s, Used(o, rights))
    ensures var s' := Forget(s, o, rights); forall x :: x in s'.objs ==> Exact(s', x, Free)
    ensures o in s.objs && s.objs[o].refcount >= 1
    ensures s.objs[o].readers >= One(HasEndpoints(s.objs[o].typ) && Read in rights)
  {
    var s', debt := Forget(s, o, rights), Used(o, rights);
    assert SlotOk(s, debt);
    ForgetShape(s, o, rights);
    hide Holders, Pinners, Lost, Forget;
    assert Exact(s, o, debt);
    forall x | x in s'.objs ensures Exact(s', x, Free) {
      assert Exact(s, x, debt);
      PaidOff(s, s', o, rights, x);
    }
  }

  lemma PaidOff(s: State, s': State, o: ObjId, rights: Rights, x: ObjId)
    requires o in s.objs && x in s.objs && SameBut(s, s', o) && s'.tables == s.tables && Exact(s, x, Used(o, rights))
    requires var k := s.objs[o];
             && s'.objs[o].refcount == k.refcount - 1
             && s'.objs[o].readers == k.readers - One(HasEndpoints(k.typ) && Read in rights)
             && s'.objs[o].writers == k.writers - One(HasEndpoints(k.typ) && Write in rights)
    ensures Exact(s', x, Free)
  {
    hide Holders, Pinners, Lost;
  }

  /** Counting a removed handle down settles the debt. */
  lemma ForgetCore(s: State, o: ObjId, rights: Rights)
    requires Core(s, Used(o, rights))
    ensures Core(Forget(s, o, rights), Free)
    ensures s.objs[o].refcount >= 1
  {
    var s', debt := Forget(s, o, rights), Used(o, rights);
    assert SlotOk(s, debt);
    ForgetShape(s, o, rights);
    ForgetExact(s, o, rights);
    hide Exact;
    forall q, j | q in s'.tables && 0 <= j < NPROC_HANDLES ensures SlotOk(s', s'.tables[q][j]) {
      assert SlotOk(s, s.tables[q][j]);
    }
    forall j | 0 <= j < PORT_TABLE_MAX && s'.ports[j] == Some(o) ensures s'.objs[o].readers > 0 {
      assert EntryOk(s, s.ports[j]);
    }
    Rebuild(s, s', o, debt, Free);
  }

  lemma DropCore(s: State, p: Pid, i: nat)
    requires Core(s, Free) && p in s.tables && i < NPROC_HANDLES && s.tables[p][i].Used?
    ensures var s' := Drop(s, p, i);
            var h := s.tables[p][i];
            && Core(s', Free) && h.obj in s.objs && SameBut(s, s', h.obj)
            && s'.tables == s.tables[p := s.tables[p][i := Free]]
            && s'.objs[h.obj].refcount == s.objs[h.obj].refcount - 1 >= 0
            && (s.objs[h.obj].readers > 1 || Read !in h.rights ==> s'.ports == s.ports)
  {
    var h := s.tables[p][i];
    TakeOutCore(s, p, i);
    assert SlotOk(s, h);
    ForgetShape(SetSlot(s, p, i, Free), h.obj, h.rights);
    ForgetCore(SetSlot(s, p, i, Free), h.obj, h.rights);
  }

  // ----- a process moves on -------------------------------------------------------------

  /** The act of p changes, and with it at most the count of one pin. */
  lemma ActCore(s: State, p: Pid, a: Act)
    requires Core(s, Free) && !ActOf(s, p).Pinned? && !a.Pinned? && ActOk(s, p, a)
    ensures Core(SetAct(s, p, a), Free)
  {
    var s' := SetAct(s, p, a);
    forall x | x in s'.objs ensures Exact(s', x, Free) {
      assert Exact(s, x, Free);
      PinChange(s.acts, p, a, x);
    }
    forall q | q in s'.acts ensures ActOk(s', q, s'.acts[q]) {
      if q != p {
        assert ActOk(s, q, s.acts[q]);
      }
    }
    forall q, j | q in s'.tables && 0 <= j < NPROC_HANDLES ensures SlotOk(s', s'.tables[q][j]) {
      assert SlotOk(s, s.tables[q][j]);
    }
    forall j | 0 <= j < PORT_TABLE_MAX ensures EntryOk(s', s'.ports[j]) {
      assert EntryOk(s, s.ports[j]);
    }
  }
}
