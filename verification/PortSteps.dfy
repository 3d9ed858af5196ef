/** Named ports: creation in two critical sections, and message traffic. */
module PortSteps {
  import opened Basics
  import opened HandleSpec
  import opened HandleInvariant
  import opened HandleSteps

  lemma PortLookupInv(s: State, p: Pid, path: string, rights: Rights)
    requires Inv(s) && ActOf(s, p).Idle?
    ensures Inv(PortLookup(s, p, path, rights).0)
  {
    var want := rights * ALL;
    var found := PortFind(s, path, 0);
    if Read !in want {
      if found < PORT_TABLE_MAX {
        var o := s.ports[found].value;
        PublishedHasRef(s, found);
        InstallInv(s, p, o, want - {Read});
      }
    } else if found == PORT_TABLE_MAX {
      var slot := FirstEmpty(s.ports, 0);
      if slot < PORT_TABLE_MAX {
        forall x | x in s.objs ensures OwnersAfter(s, p, PortSlot(slot, path, want), x) == One(s.objs[x].refcount == 0) {
          assert Owned(s, x);
        }
        MoveAct(s, p, PortSlot(slot, path, want));
      }
    }
  }

  /** A published port has a receiver, hence a reference: a port whose count is
      zero can never be found by name. */
  lemma PublishedHasRef(s: State, i: nat)
    requires Core(s, Free) && i < PORT_TABLE_MAX && s.ports[i].Some?
    ensures var o := s.ports[i].value;
            o in s.objs && s.objs[o].typ == Port && s.objs[o].readers >= 1 && s.objs[o].refcount >= 1
  {
    assert EntryOk(s, s.ports[i]);
    if s.objs[s.ports[i].value].refcount == 0 {
      NoRefNoName(s, s.ports[i].value);
    }
    assert Exact(s, s.ports[i].value, Free);
  }

  lemma PublishedLive(s: State, i: nat)
    requires Inv(s) && i < PORT_TABLE_MAX && s.ports[i].Some?
    ensures s.ports[i].value in s.objs
  {
    PublishedHasRef(s, i);
  }

  lemma PortAllocInv(s: State, p: Pid, o: ObjId)
    requires Inv(s) && ActOf(s, p).PortSlot? && o !in s.objs
    ensures Inv(PortAlloc(s, p, o))
  {
    var a := s.acts[p];
    assert ActOk(s, p, a);
    AllocInv(s, p, o, NewObject(Port, Truncate(a.path), p), PortReady(o, a.slot, a.path, a.want));
  }

  lemma PortPublishInv(s: State, p: Pid)
    requires Inv(s) && ActOf(s, p).PortReady?
    ensures Inv(PortPublish(s, p).0)
  {
    var a := s.acts[p];
    OwnedHasNoRef(s, p);
    if PortFind(s, a.path, 0) < PORT_TABLE_MAX {
      PublishLocal(s, s, p, a.obj, Freeing(a.obj));
    } else {
      assert ActOk(s, p, a);
      PublishAt(s, p, a.obj, a.slot, a.want);
    }
  }

  lemma PublishAt(s: State, p: Pid, o: ObjId, slot: PortIndex, want: Rights)
    requires Inv(s) && o in s.objs && s.objs[o].refcount == 0 && s.objs[o].typ == Port
    requires Owning(ActOf(s, p), o) && Read in want && want <= ALL
    ensures var (s1, h) := Install(s, p, o, want);
            Inv(if h < 0 then SetAct(s1, p, Freeing(o))
                else SetAct(s1.(ports := s1.ports[slot := Some(o)]), p, Idle))
  {
    hide Core, Install;
    InstallCore(s, p, o, want);
    var (s1, h) := Install(s, p, o, want);
    if h < 0 {
      PublishLocal(s, s1, p, o, Freeing(o));
    } else {
      NoRefNoName(s, o);
      EntryCore(s1, slot, o);
      PublishLocal(s, s1.(ports := s1.ports[slot := Some(o)]), p, o, Idle);
    }
  }

  /** Publishing, at any index, a port that has a receiver and is not yet published. */
  lemma EntryCore(s: State, i: nat, o: ObjId)
    requires Core(s, Free) && i < PORT_TABLE_MAX && o in s.objs && s.objs[o].typ == Port && s.objs[o].readers > 0
    requires forall j :: 0 <= j < PORT_TABLE_MAX ==> s.ports[j] != Some(o)
    ensures Core(s.(ports := s.ports[i := Some(o)]), Free)
  {
    var s' := s.(ports := s.ports[i := Some(o)]);
    forall x | x in s'.objs ensures Exact(s', x, Free) {
      assert Exact(s, x, Free);
    }
    forall q | q in s'.acts ensures ActOk(s', q, s'.acts[q]) {
      assert ActOk(s, q, s.acts[q]);
    }
    forall q, j | q in s'.tables && 0 <= j < NPROC_HANDLES ensures SlotOk(s', s'.tables[q][j]) {
      assert SlotOk(s, s.tables[q][j]);
    }
    forall j | 0 <= j < PORT_TABLE_MAX ensures EntryOk(s', s'.ports[j]) {
      assert EntryOk(s, s.ports[j]);
    }
  }

  /** Message traffic changes a queue and nothing the invariant speaks of. */
  lemma QueueInv(s: State, o: ObjId, q: seq<Message>)
    requires Inv(s) && o in s.objs
    ensures Inv(s.(objs := s.objs[o := s.objs[o].(queue := q)]))
  {
    hide Holders, Pinners, Lost, Owners;
    var s' := s.(objs := s.objs[o := s.objs[o].(queue := q)]);
    forall x | x in s'.objs ensures Exact(s', x, Free) && Owned(s', x) {
      assert Exact(s, x, Free) && Owned(s, x);
    }
    QueueFrame(s, s', o);
  }

  lemma QueueFrame(s: State, s': State, o: ObjId)
    requires Core(s, Free) && o in s.objs
    requires s' == s.(objs := s'.objs) && s'.objs.Keys == s.objs.Keys
    requires forall x :: x in s.objs ==> s'.objs[x] == s.objs[x].(queue := s'.objs[x].queue)
    requires forall x :: x in s'.objs ==> Exact(s', x, Free)
    ensures Core(s', Free)
  {
    forall p | p in s'.acts ensures ActOk(s', p, s'.acts[p]) {
      assert ActOk(s, p, s.acts[p]);
    }
    forall p, j | p in s'.tables && 0 <= j < NPROC_HANDLES ensures SlotOk(s', s'.tables[p][j]) {
      assert SlotOk(s, s.tables[p][j]);
    }
    forall j | 0 <= j < PORT_TABLE_MAX ensures EntryOk(s', s'.ports[j]) {
      assert EntryOk(s, s.ports[j]);
    }
    forall t ensures LiveCount(s', t) == |OfType(s'.objs, t)| {
      assert OfType(s'.objs, t) == OfType(s.objs, t);
      assert LiveCount(s', t) == LiveCount(s, t);
    }
  }

  lemma PortWriteInv(s: State, p: Pid, m: Message)
    requires Inv(s) && ActOf(s, p).Pinned?
    ensures Inv(PortWrite(s, p, m).0)
  {
    hide Inv;
    PinLive(s, p);
    var o := s.acts[p].obj;
    QueueInv(s, o, s.objs[o].queue + [m.(from := p)]);
  }

  lemma PortReadInv(s: State, p: Pid)
    requires Inv(s) && ActOf(s, p).Pinned?
    ensures Inv(PortRead(s, p).0)
  {
    hide Inv;
    PinLive(s, p);
    var o := s.acts[p].obj;
    if |s.objs[o].queue| > 0 {
      QueueInv(s, o, s.objs[o].queue[1..]);
    }
  }
}
