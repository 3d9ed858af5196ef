/** When sys_port_send_caps succeeds, and with which error it fails. */
module SendCalls {
  import opened Basics
  import opened HandleSpec
  import opened HandleInvariant
  import opened HandleSteps
  import opened HandleCalls
  import PortListed
  import PortSend

  function FreeSlots(t: Table): set<int> {
    set i | 0 <= i < 32 && t[i].Free?
  }

  /** The descriptors name handles of p. */
  predicate AllHandles(s: State, p: Pid, fds: seq<int>, from: nat) {
    forall k :: from <= k < |fds| ==> Handle(s, p, fds[k])
  }

  /** Index of the first descriptor at or after `from` that names no handle. */
  function FirstBad(s: State, p: Pid, fds: seq<int>, from: nat): (k: nat)
    requires from <= |fds|
    ensures from <= k <= |fds| && (k < |fds| ==> !Handle(s, p, fds[k]))
    ensures forall j :: from <= j < k ==> Handle(s, p, fds[j])
    decreases |fds| - from
  {
    if from == |fds| || !Handle(s, p, fds[from]) then from else FirstBad(s, p, fds, from + 1)
  }

  lemma RoomIsFree(s: State, p: Pid)
    requires p in s.tables
    ensures HasRoom(s, p) <==> |FreeSlots(s.tables[p])| > 0
  {
    if HasRoom(s, p) {
      var i :| 0 <= i < 32 && s.tables[p][i].Free?;
      assert i in FreeSlots(s.tables[p]);
    } else {
      assert FreeSlots(s.tables[p]) == {};
    }
  }

  lemma OneTaken(t: Table, t': Table, h: int)
    requires 0 <= h < 32 && t[h].Free? && t'[h].Used? && forall i :: 0 <= i < 32 && i != h ==> t'[i] == t[i]
    ensures |FreeSlots(t')| == |FreeSlots(t)| - 1
  {
    assert FreeSlots(t') == FreeSlots(t) - {h};
    Without(FreeSlots(t), h);
  }

  /** The error of the install loop, from index |done| on: the first descriptor
      that names nothing, or the first for which no slot is left. */
  ghost predicate Verdicts(s: State, p: Pid, rcv: Pid, fds: seq<int>, n: nat, err: int)
    requires rcv in s.tables && n <= |fds|
  {
    var room, bad := n + |FreeSlots(s.tables[rcv])|, FirstBad(s, p, fds, n);
    && (err == -EBADF <==> bad < |fds| && bad <= room)
    && (err == -EMFILE <==> room < bad)
    && (err == 0 <==> bad == |fds| && bad <= room)
  }

  lemma {:induction false} LendExactly(s: State, p: Pid, rcv: Pid, fds: seq<int>, done: seq<nat>)
    requires Inv(s) && p in s.tables && rcv in s.tables && p != rcv && |done| <= |fds|
    ensures Verdicts(s, p, rcv, fds, |done|, InstallAll(s, p, rcv, fds, done).2)
    decreases |fds| - |done|
  {
    hide Inv, Install, Gains;
    RoomIsFree(s, rcv);
    if |done| < |fds| && Handle(s, p, fds[|done|]) {
      var src := s.tables[p][fds[|done|]];
      NamedLive(s, p, fds[|done|]);
      InstallExactly(s, rcv, src.obj, src.rights);
      PortSend.CopyOne(s, p, fds[|done|], rcv);
      var (s1, h) := Install(s, rcv, src.obj, src.rights);
      if h >= 0 {
        OneTaken(s.tables[rcv], s1.tables[rcv], h);
        LendExactly(s1, p, rcv, fds, done + [h]);
        SameBad(s, s1, p, fds, |done| + 1);
      }
    }
  }

  lemma {:induction false} SameBad(s: State, s1: State, p: Pid, fds: seq<int>, from: nat)
    requires from <= |fds| && p in s.tables && p in s1.tables && s1.tables[p] == s.tables[p]
    ensures FirstBad(s1, p, fds, from) == FirstBad(s, p, fds, from)
    decreases |fds| - from
  {
    if from < |fds| && Handle(s, p, fds[from]) {
      SameBad(s, s1, p, fds, from + 1);
    }
  }

  /** Lending never changes whether the port has a receiver. */
  lemma ReceiverStays(s: State, p: Pid, rcv: Pid, fds: seq<int>, o: ObjId)
    requires Inv(s) && p in s.tables && rcv in s.tables && o in s.objs && s.objs[o].typ == Port
    ensures var s1 := InstallAll(s, p, rcv, fds, []).0; o in s1.objs && (s1.objs[o].readers > 0 <==> s.objs[o].readers > 0)
    ensures var s1 := InstallAll(s, p, rcv, fds, []).0; s1.objs[o].readers >= 0 && s.objs[o].readers >= 0
    ensures InstallAll(s, p, rcv, fds, []).0.objs[o].queue == s.objs[o].queue
  {
    var s1 := InstallAll(s, p, rcv, fds, []).0;
    PortSend.StartLending(s, p, rcv, fds);
    PortSend.LendAll(s, s, p, rcv, fds, []);
    PortListed.InstallAllSheds(s, p, rcv, fds, []);
    assert SameIdentity(s.objs[o], s1.objs[o]);
    assert PortListed.LivePort(s1, o) ==> PortListed.LivePort(s, o);
    assert Exact(s, o, Free) && Exact(s1, o, Free);
    if s.objs[o].readers > 0 {
      StillHeld(s, s1, p, rcv, InstallAll(s, p, rcv, fds, []).1, o);
    }
  }

  lemma StillHeld(s: State, s1: State, p: Pid, rcv: Pid, slots: seq<nat>, o: ObjId)
    requires PortSend.Lent(s.tables, s1.tables, p, rcv, slots) && s1.lost == s.lost
    requires o in s.objs && o in s1.objs && Exact(s, o, Free) && Exact(s1, o, Free)
    requires s.objs[o].typ == Port && s1.objs[o].typ == Port && s.objs[o].readers > 0
    ensures s1.objs[o].readers > 0
  {
    var a, b := Holders(s.tables, o, {Read}), Holders(s1.tables, o, {Read});
    forall k | 0 <= k < |slots| ensures slots[k] < 32 && s.tables[rcv][slots[k]].Free? {
      assert PortSend.Borrowed(s.tables, s1.tables, p, rcv, slots[k]);
    }
    assert a <= b;
    if a != {} {
      var e :| e in a;
      assert e in b;
    }
  }

  /** The return value from the outcome of the install loop. */
  lemma Returns(s: State, p: Pid, alive: bool, m: Message, fds: seq<int>)
    requires ActOf(s, p).Pinned?
    ensures var o, r := s.acts[p].obj, SendCaps(s, p, alive, m, fds).ret;
            var k := Obj(s, o);
            if |fds| > 4 || k.typ != Port then r == -EINVAL
            else if !alive then r == -ESRCH
            else if k.owner !in s.tables then r == -ENOMEM
            else
              var (s1, slots, err) := InstallAll(s, p, k.owner, fds, []);
              r == if err < 0 then err
                   else if Obj(s1, o).readers == 0 then -EPIPE
                   else if |Obj(s1, o).queue| >= 32 then -EAGAIN
                   else MESSAGE_SIZE
  {
    hide InstallAll, Unwind, Stamp, Enqueue;
  }

  /** Between two different processes: the conditions under which a send succeeds,
      and the error otherwise, in the order of the tests. */
  lemma SendExactly(s: State, p: Pid, alive: bool, m: Message, fds: seq<int>)
    requires Inv(s) && ActOf(s, p).Pinned? && p in s.tables && Obj(s, s.acts[p].obj).owner != p
    ensures var o := s.acts[p].obj;
            && o in s.objs
            && var k, r := s.objs[o], SendCaps(s, p, alive, m, fds).ret;
            && (|fds| > 4 || k.typ != Port ==> r == -EINVAL)
            && (|fds| <= 4 && k.typ == Port && !alive ==> r == -ESRCH)
            && (|fds| <= 4 && k.typ == Port && alive && k.owner !in s.tables ==> r == -ENOMEM)
            && (|fds| <= 4 && k.typ == Port && alive && k.owner in s.tables ==>
                  var room, bad := |FreeSlots(s.tables[k.owner])|, FirstBad(s, p, fds, 0);
                  r == if bad < |fds| && bad <= room then -EBADF
                       else if room < |fds| then -EMFILE
                       else if k.readers == 0 then -EPIPE
                       else if |k.queue| >= 32 then -EAGAIN
                       else MESSAGE_SIZE)
  {
    hide Inv, InstallAll, FirstBad, SendCaps, PortSend.Lent, PortSend.Faithful, PortSend.Frame;
    PinLive(s, p);
    Returns(s, p, alive, m, fds);
    var o := s.acts[p].obj;
    var rcv := s.objs[o].owner;
    if |fds| <= 4 && s.objs[o].typ == Port && alive && rcv in s.tables {
      LendExactly(s, p, rcv, fds, []);
      ReceiverStays(s, p, rcv, fds, o);
      PortSend.StartLending(s, p, rcv, fds);
      PortSend.LendAll(s, s, p, rcv, fds, []);
    }
  }
}
