/** sys_port_send_caps is all-or-nothing. */
module PortSend {
  import opened Basics
  import opened HandleSpec
  import opened HandleInvariant
  import opened HandleSteps
  import PortSteps

  type Tables = map<Pid, Table>

  // ----- what the install loop does to the tables ---------------------------------------

  /** Slot i of the receiver, free before, holds a copy of a sender's handle. */
  ghost predicate Borrowed(t0: Tables, t: Tables, p: Pid, rcv: Pid, i: nat) {
    && p in t0 && rcv in t0 && rcv in t && i < NPROC_HANDLES
    && t0[rcv][i].Free? && t[rcv][i].Used? && t[rcv][i] in t0[p]
  }

  /** t differs from t0 exactly in the receiver's distinct borrowed slots. */
  ghost predicate Lent(t0: Tables, t: Tables, p: Pid, rcv: Pid, slots: seq<nat>) {
    && p in t0 && rcv in t0 && t.Keys == t0.Keys
    && (forall q :: q in t0 && q != rcv ==> t[q] == t0[q])
    && (forall i :: 0 <= i < NPROC_HANDLES && i !in slots ==> t[rcv][i] == t0[rcv][i])
    && (forall k :: 0 <= k < |slots| ==> Borrowed(t0, t, p, rcv, slots[k]))
    && (forall j, k :: 0 <= j < k < |slots| ==> slots[j] != slots[k])
  }

  /** The k-th borrowed slot carries exactly what the sender's k-th descriptor names. */
  ghost predicate Faithful(t0: Tables, t: Tables, p: Pid, rcv: Pid, fds: seq<int>, slots: seq<nat>) {
    && p in t0 && rcv in t && |slots| <= |fds|
    && forall k :: 0 <= k < |slots| ==>
         0 <= fds[k] < NPROC_HANDLES && slots[k] < NPROC_HANDLES && t[rcv][slots[k]] == t0[p][fds[k]]
  }

  lemma SourceIsOriginal(t0: Tables, t: Tables, p: Pid, rcv: Pid, slots: seq<nat>, fd: int)
    requires Lent(t0, t, p, rcv, slots) && 0 <= fd < NPROC_HANDLES && t[p][fd].Used?
    ensures t[p][fd] in t0[p]
  {
    if p == rcv && fd in slots {
      var k :| 0 <= k < |slots| && slots[k] == fd;
      assert Borrowed(t0, t, p, rcv, slots[k]);
    }
  }

  lemma LendOne(t0: Tables, t: Tables, p: Pid, rcv: Pid, slots: seq<nat>, fd: int, h: nat)
    requires Lent(t0, t, p, rcv, slots) && 0 <= fd < NPROC_HANDLES && t[p][fd].Used?
    requires h < NPROC_HANDLES && t[rcv][h].Free?
    ensures Lent(t0, t[rcv := t[rcv][h := t[p][fd]]], p, rcv, slots + [h])
  {
    var t1 := t[rcv := t[rcv][h := t[p][fd]]];
    var slots' := slots + [h];
    SourceIsOriginal(t0, t, p, rcv, slots, fd);
    assert h !in slots by {
      forall k | 0 <= k < |slots| ensures slots[k] != h {
        assert Borrowed(t0, t, p, rcv, slots[k]);
      }
    }
    forall k | 0 <= k < |slots'| ensures Borrowed(t0, t1, p, rcv, slots'[k]) {
      if k < |slots| { assert Borrowed(t0, t, p, rcv, slots[k]); }
    }
    forall i | 0 <= i < NPROC_HANDLES && i !in slots' ensures t1[rcv][i] == t0[rcv][i] {
      assert slots'[|slots|] == h;
      assert i !in slots;
    }
  }

  lemma FaithfulOne(t0: Tables, t: Tables, p: Pid, rcv: Pid, fds: seq<int>, slots: seq<nat>, h: nat)
    requires Lent(t0, t, p, rcv, slots) && Faithful(t0, t, p, rcv, fds, slots) && p != rcv
    requires |slots| < |fds| && 0 <= fds[|slots|] < NPROC_HANDLES
    requires h < NPROC_HANDLES && t[rcv][h].Free?
    ensures Faithful(t0, t[rcv := t[rcv][h := t[p][fds[|slots|]]]], p, rcv, fds, slots + [h])
  {
    forall k | 0 <= k < |slots| ensures slots[k] != h {
      assert Borrowed(t0, t, p, rcv, slots[k]);
    }
  }

  lemma TakeBackOne(t0: Tables, t: Tables, p: Pid, rcv: Pid, slots: seq<nat>)
    requires Lent(t0, t, p, rcv, slots) && slots != []
    ensures slots[0] < NPROC_HANDLES && t[rcv][slots[0]].Used?
    ensures Lent(t0, t[rcv := t[rcv][slots[0] := Free]], p, rcv, slots[1..])
  {
    assert Borrowed(t0, t, p, rcv, slots[0]);
    var t1, rest := t[rcv := t[rcv][slots[0] := Free]], slots[1..];
    forall i | 0 <= i < NPROC_HANDLES && i !in rest ensures t1[rcv][i] == t0[rcv][i] {
      if i != slots[0] { assert i !in slots; }
    }
    forall k | 0 <= k < |rest| ensures Borrowed(t0, t1, p, rcv, rest[k]) {
      assert Borrowed(t0, t, p, rcv, slots[k + 1]);
      assert slots[0] != slots[k + 1];
    }
  }

  /** The original of a borrowed handle is still in place. */
  lemma OriginalStays(t0: Tables, t: Tables, p: Pid, rcv: Pid, slots: seq<nat>) returns (j: nat)
    requires Lent(t0, t, p, rcv, slots) && slots != []
    ensures slots[0] < NPROC_HANDLES && j < NPROC_HANDLES && t[p][j] == t[rcv][slots[0]]
    ensures (p, j) != (rcv, slots[0])
  {
    assert Borrowed(t0, t, p, rcv, slots[0]);
    j :| j < NPROC_HANDLES && t0[p][j] == t[rcv][slots[0]];
    if p == rcv {
      forall k | 0 <= k < |slots| ensures slots[k] != j {
        assert Borrowed(t0, t, p, rcv, slots[k]);
      }
      assert j !in slots;
    }
  }

  // ----- the same for whole states ----------------------------------------------------------

  /** Everything but tables and counts is as in s0. */
  ghost predicate Frame(s0: State, s: State) {
    && s.acts == s0.acts && s.live == s0.live && s.ports == s0.ports && s.lost == s0.lost
    && s.objs.Keys == s0.objs.Keys
    && (forall x :: x in s0.objs ==> SameIdentity(s0.objs[x], s.objs[x]))
  }

  lemma FrameTrans(s0: State, s: State, s1: State)
    requires Frame(s0, s) && Frame(s, s1)
    ensures Frame(s0, s1)
  {
    forall x | x in s0.objs ensures SameIdentity(s0.objs[x], s1.objs[x]) {
      assert SameIdentity(s0.objs[x], s.objs[x]) && SameIdentity(s.objs[x], s1.objs[x]);
    }
  }

  /** One install of a copy of a live handle, as a step from s to s1. */
  lemma CopyOne(s: State, p: Pid, fd: int, rcv: Pid)
    requires Inv(s) && ValidHandle(s, p, fd) && rcv in s.tables
    ensures var (s1, h) := Install(s, rcv, s.tables[p][fd].obj, s.tables[p][fd].rights);
            && Inv(s1) && Frame(s, s1) && h < NPROC_HANDLES
            && (h < 0 ==> s1 == s && h == -EMFILE)
            && (h >= 0 ==> s.tables[rcv][h].Free? && s1.tables == s.tables[rcv := s.tables[rcv][h := s.tables[p][fd]]])
  {
    var src := s.tables[p][fd];
    NamedHasRef(s, p, fd);
    assert SlotOk(s, src);
    InstallInv(s, rcv, src.obj, src.rights);
    InstallCore(s, rcv, src.obj, src.rights);
  }

  lemma {:induction false} LendAll(s0: State, s: State, p: Pid, rcv: Pid, fds: seq<int>, done: seq<nat>)
    requires Inv(s) && Frame(s0, s) && Lent(s0.tables, s.tables, p, rcv, done) && |done| <= |fds|
    requires p != rcv ==> Faithful(s0.tables, s.tables, p, rcv, fds, done)
    ensures var (s1, slots, err) := InstallAll(s, p, rcv, fds, done);
            && Inv(s1) && Frame(s0, s1) && Lent(s0.tables, s1.tables, p, rcv, slots)
            && (p != rcv ==> Faithful(s0.tables, s1.tables, p, rcv, fds, slots))
            && |slots| <= |fds| && (err == 0 <==> |slots| == |fds|) && (err == 0 || err == -EBADF || err == -EMFILE)
    decreases |fds| - |done|
  {
    hide Inv, Faithful, Frame;
    if |done| < |fds| && ValidHandle(s, p, fds[|done|]) {
      var fd := fds[|done|];
      CopyOne(s, p, fd, rcv);
      var (s1, h) := Install(s, rcv, s.tables[p][fd].obj, s.tables[p][fd].rights);
      if h >= 0 {
        FrameTrans(s0, s, s1);
        LendOne(s0.tables, s.tables, p, rcv, done, fd, h);
        if p != rcv {
          FaithfulOne(s0.tables, s.tables, p, rcv, fds, done, h);
        }
        LendAll(s0, s1, p, rcv, fds, done + [h]);
      }
    }
  }

  lemma TwoHolders(tables: Tables, p: Pid, i: int, q: Pid, j: int, o: ObjId, need: Rights)
    requires p in tables && q in tables && 0 <= i < NPROC_HANDLES && 0 <= j < NPROC_HANDLES && (p, i) != (q, j)
    requires Holds(tables[p][i], o, need) && Holds(tables[q][j], o, need)
    ensures |Holders(tables, o, need)| >= 2
  {
    var hs := Holders(tables, o, need);
    assert {(p, i), (q, j)} <= hs;
    Without(hs, (p, i));
    Without(hs - {(p, i)}, (q, j));
  }

  lemma CountedTwice(s: State, p: Pid, j: nat, rcv: Pid, i: nat)
    requires Core(s, Free) && p in s.tables && rcv in s.tables && i < NPROC_HANDLES && j < NPROC_HANDLES && (p, j) != (rcv, i)
    requires s.tables[rcv][i].Used? && s.tables[p][j] == s.tables[rcv][i]
    ensures var h := s.tables[rcv][i];
            && h.obj in s.objs && s.objs[h.obj].refcount >= 2
            && (Read in h.rights && s.objs[h.obj].typ == Port ==> s.objs[h.obj].readers >= 2)
  {
    var h := s.tables[rcv][i];
    assert SlotOk(s, h);
    assert Exact(s, h.obj, Free);
    TwoHolders(s.tables, p, j, rcv, i, h.obj, {});
    if Read in h.rights {
      TwoHolders(s.tables, p, j, rcv, i, h.obj, {Read});
    }
  }

  /** Taking a copy back while another slot holds the same handle drops neither
      the last reference nor the last receiver. */
  lemma DropCopy(s: State, p: Pid, j: nat, rcv: Pid, i: nat)
    requires Inv(s) && p in s.tables && rcv in s.tables && i < NPROC_HANDLES && j < NPROC_HANDLES && (p, j) != (rcv, i)
    requires s.tables[rcv][i].Used? && s.tables[p][j] == s.tables[rcv][i]
    ensures var s1 := Drop(s, rcv, i);
            && Inv(s1) && Frame(s, s1) && s1.tables == s.tables[rcv := s.tables[rcv][i := Free]]
            && Obj(s1, s.tables[rcv][i].obj).refcount > 0
  {
    hide Core, Owners;
    CountedTwice(s, p, j, rcv, i);
    DropCore(s, rcv, i);
    var s1 := Drop(s, rcv, i);
    forall x | x in s1.objs ensures Owned(s1, x) {
      assert Owned(s, x);
    }
    DropPorts(s, rcv, i);
  }

  lemma DropPorts(s: State, p: Pid, i: nat)
    requires p in s.tables && i < NPROC_HANDLES && s.tables[p][i].Used? && s.tables[p][i].obj in s.objs
    requires var h := s.tables[p][i];
             Read in h.rights && s.objs[h.obj].typ == Port ==> s.objs[h.obj].readers >= 2
    ensures Drop(s, p, i).ports == s.ports
  {
    ForgetShape(SetSlot(s, p, i, Free), s.tables[p][i].obj, s.tables[p][i].rights);
  }

  /** Exact counts determine the objects: nothing lent means nothing changed. */
  lemma NothingLent(s0: State, s: State, p: Pid, rcv: Pid)
    requires Inv(s0) && Inv(s) && Frame(s0, s) && Lent(s0.tables, s.tables, p, rcv, [])
    ensures s == s0
  {
    assert s.tables[rcv] == s0.tables[rcv];
    assert s.tables == s0.tables;
    forall x | x in s0.objs ensures s.objs[x] == s0.objs[x] {
      assert Exact(s0, x, Free) && Exact(s, x, Free) && SameIdentity(s0.objs[x], s.objs[x]);
    }
    assert s.objs == s0.objs;
  }

  lemma {:induction false} UnwindRestores(s0: State, s: State, p: Pid, rcv: Pid, slots: seq<nat>)
    requires Inv(s0) && Inv(s) && Frame(s0, s) && Lent(s0.tables, s.tables, p, rcv, slots)
    ensures Unwind(s, rcv, slots, None) == (s0, None)
    decreases |slots|
  {
    if slots == [] {
      NothingLent(s0, s, p, rcv);
    } else {
      var j := OriginalStays(s0.tables, s.tables, p, rcv, slots);
      TakeBackOne(s0.tables, s.tables, p, rcv, slots);
      DropCopy(s, p, j, rcv, slots[0]);
      FrameTrans(s0, s, Drop(s, rcv, slots[0]));
      UnwindRestores(s0, Drop(s, rcv, slots[0]), p, rcv, slots[1..]);
    }
  }

  // ----- the two outcomes -------------------------------------------------------------------

  lemma StartLending(s: State, p: Pid, rcv: Pid, fds: seq<int>)
    requires p in s.tables && rcv in s.tables
    ensures Frame(s, s) && Lent(s.tables, s.tables, p, rcv, []) && Faithful(s.tables, s.tables, p, rcv, fds, [])
  {
  }

  /** A failing send changes nothing at all and never drops a last reference. */
  lemma SendFailsClean(s: State, p: Pid, alive: bool, m: Message, fds: seq<int>)
    requires Inv(s) && ActOf(s, p).Pinned? && p in s.tables
    requires SendCaps(s, p, alive, m, fds).ret < 0
    ensures SendCaps(s, p, alive, m, fds).state == s
    ensures SendCaps(s, p, alive, m, fds).toFree == None
  {
    hide Inv, Faithful, InstallAll, Unwind, Lent;
    var o := s.acts[p].obj;
    var rcv := Obj(s, o).owner;
    if |fds| <= MAX_SEND_FDS && Obj(s, o).typ == Port && alive && rcv in s.tables {
      StartLending(s, p, rcv, fds);
      LendAll(s, s, p, rcv, fds, []);
      var (s1, slots, err) := InstallAll(s, p, rcv, fds, []);
      UnwindRestores(s, s1, p, rcv, slots);
    }
  }

  /** The message as the receiver finds it: from the sender, its leading payload
      ints the receiver's slots, everything else as it was given. */
  ghost predicate Carries(sent: Message, m: Message, p: Pid, slots: seq<nat>) {
    && sent.from == p && sent.kind == m.kind && sent.data1 == m.data1 && sent.data2 == m.data2
    && (|slots| <= |m.payload| ==> |sent.payload| == |m.payload|)
    && |slots| <= |sent.payload| && (forall k :: 0 <= k < |slots| ==> sent.payload[k] == slots[k])
    && (forall k :: |slots| <= k < |m.payload| && k < |sent.payload| ==> sent.payload[k] == m.payload[k])
  }

  /** What a successful send has done: every descriptor became a slot of the
      receiver that was free before, carrying the sender's object and rights,
      and one message naming those slots joined the port's queue. */
  ghost predicate Delivered(s: State, s': State, p: Pid, o: ObjId, m: Message, fds: seq<int>, slots: seq<nat>) {
    && o in s.objs && s'.objs.Keys == s.objs.Keys && |slots| == |fds|
    && s'.acts == s.acts && s'.live == s.live && s'.ports == s.ports && s'.lost == s.lost
    && Lent(s.tables, s'.tables, p, s.objs[o].owner, slots)
    && (p != s.objs[o].owner ==> Faithful(s.tables, s'.tables, p, s.objs[o].owner, fds, slots))
    && (exists sent :: s'.objs[o].queue == s.objs[o].queue + [sent] && Carries(sent, m, p, slots))
    && (forall x :: x in s.objs && x != o ==> s'.objs[x].queue == s.objs[x].queue)
    && (forall x :: x in s.objs ==> s'.objs[x].typ == s.objs[x].typ && s'.objs[x].name == s.objs[x].name
                                    && s'.objs[x].owner == s.objs[x].owner)
  }

  /** The one path on which SendCaps does not return an error. */
  lemma SuccessPath(s: State, p: Pid, alive: bool, m: Message, fds: seq<int>)
    requires ActOf(s, p).Pinned? && SendCaps(s, p, alive, m, fds).ret >= 0
    ensures var o := s.acts[p].obj;
            && |fds| <= MAX_SEND_FDS && Obj(s, o).owner in s.tables
            && var (s1, slots, err) := InstallAll(s, p, Obj(s, o).owner, fds, []);
               err >= 0 && |Obj(s1, o).queue| < 32
               && SendCaps(s, p, alive, m, fds) == SendResult(Enqueue(s1, o, Stamp(m, p, slots)), MESSAGE_SIZE, None)
  {
    hide InstallAll, Enqueue, Stamp;
  }

  /** A send goes through only while the queue has room. */
  lemma RoomToSend(s: State, p: Pid, alive: bool, m: Message, fds: seq<int>)
    requires Inv(s) && ActOf(s, p).Pinned? && p in s.tables && SendCaps(s, p, alive, m, fds).ret >= 0
    ensures var o := s.acts[p].obj; o in s.objs && |s.objs[o].queue| < 32
  {
    hide Inv, Lent, Faithful, InstallAll, SendCaps;
    PinLive(s, p);
    SuccessPath(s, p, alive, m, fds);
    var o := s.acts[p].obj;
    var rcv := s.objs[o].owner;
    StartLending(s, p, rcv, fds);
    LendAll(s, s, p, rcv, fds, []);
    assert SameIdentity(s.objs[o], InstallAll(s, p, rcv, fds, []).0.objs[o]);
  }

  lemma SendDelivers(s: State, p: Pid, alive: bool, m: Message, fds: seq<int>)
    requires Inv(s) && ActOf(s, p).Pinned? && p in s.tables
    requires SendCaps(s, p, alive, m, fds).ret >= 0
    ensures var r := SendCaps(s, p, alive, m, fds);
            && Inv(r.state) && r.ret == MESSAGE_SIZE && r.toFree == None
            && exists slots :: Delivered(s, r.state, p, s.acts[p].obj, m, fds, slots)
  {
    var o := s.acts[p].obj;
    PinHasRef(s, p);
    hide Inv, Lent, Faithful, Delivered, SendCaps, InstallAll;
    var rcv := s.objs[o].owner;
    SuccessPath(s, p, alive, m, fds);
    StartLending(s, p, rcv, fds);
    LendAll(s, s, p, rcv, fds, []);
    var (s1, slots, err) := InstallAll(s, p, rcv, fds, []);
    assert SameIdentity(s.objs[o], s1.objs[o]);
    PortSteps.QueueInv(s1, o, s1.objs[o].queue + [Stamp(m, p, slots)]);
    EnqueueDelivers(s, s1, p, o, m, fds, slots);
  }

  lemma EnqueueDelivers(s: State, s1: State, p: Pid, o: ObjId, m: Message, fds: seq<int>, slots: seq<nat>)
    requires o in s.objs && Frame(s, s1) && |slots| == |fds|
    requires Lent(s.tables, s1.tables, p, s.objs[o].owner, slots)
    requires p != s.objs[o].owner ==> Faithful(s.tables, s1.tables, p, s.objs[o].owner, fds, slots)
    ensures Delivered(s, Enqueue(s1, o, Stamp(m, p, slots)), p, o, m, fds, slots)
  {
    forall x | x in s.objs ensures SameIdentity(s.objs[x], s1.objs[x]) {}
    assert Carries(Stamp(m, p, slots), m, p, slots);
  }

  lemma SendCapsInv(s: State, p: Pid, alive: bool, m: Message, fds: seq<int>)
    requires Inv(s) && ActOf(s, p).Pinned? && p in s.tables
    ensures Inv(SendCaps(s, p, alive, m, fds).state)
  {
    if SendCaps(s, p, alive, m, fds).ret < 0 {
      SendFailsClean(s, p, alive, m, fds);
    } else {
      SendDelivers(s, p, alive, m, fds);
    }
  }

  lemma SendCapsActs(s: State, p: Pid, alive: bool, m: Message, fds: seq<int>)
    requires Inv(s) && ActOf(s, p).Pinned? && p in s.tables
    ensures SendCaps(s, p, alive, m, fds).state.acts == s.acts
  {
    hide SendCaps, Inv;
    if SendCaps(s, p, alive, m, fds).ret < 0 {
      SendFailsClean(s, p, alive, m, fds);
    } else {
      SendDelivers(s, p, alive, m, fds);
    }
  }
}
