/** The object manager in the form of kernel/core/object.c: tables, objects and
    the port table updated in place by loops, each method proved to perform the
    transition of HandleSpec that the run theorems are about. */
module ObjectManager {
  import opened Basics
  import opened HandleSpec
  import opened HandleInvariant
  import opened HandleSteps
  import PortSteps
  import PortSend
  import ProcessSteps

  lemma PutKeepsObjects(s: State, p: Pid, i: nat, o: ObjId, rights: Rights)
    requires p in s.tables && i < NPROC_HANDLES && o in s.objs
    ensures Put(s, p, i, o, rights).objs.Keys == s.objs.Keys
  {
    PutShape(s, p, i, o, rights);
  }

  lemma ForgetKeepsObjects(s: State, o: ObjId, rights: Rights)
    requires o in s.objs
    ensures Forget(s, o, rights).objs.Keys == s.objs.Keys
  {
    ForgetShape(s, o, rights);
  }

  class Manager {
    var objs: map<ObjId, KObject>
    var tables: map<Pid, Table>
    var ports: PortTable
    var acts: map<Pid, Act>
    var live: map<ObjType, int>
    /** The handles overwritten so far: in no field of the kernel's. */
    ghost var lost: seq<Slot>

    ghost function Abs(): State
      reads this
    {
      State(objs, tables, ports, acts, live, lost)
    }

    ghost predicate Valid()
      reads this
    {
      Inv(Abs())
    }

    function NameOf(o: ObjId): string
      reads this
      ensures NameOf(o) == Obj(Abs(), o).name
    {
      if o in objs then objs[o].name else ""
    }

    constructor ()
      ensures Valid() && objs == map[] && tables == map[] && acts == map[] && live == map[] && lost == []
      ensures forall i :: 0 <= i < PORT_TABLE_MAX ==> ports[i].None?
    {
      objs, tables, acts, live := map[], map[], map[], map[];
      ports := seq(PORT_TABLE_MAX, i => None);
      lost := [];
    }

    // ----- helpers that run with the lock held ------------------------------------------

    method PortFindLocked(name: string) returns (i: nat)
      ensures i == PortFind(Abs(), name, 0)
    {
      i := 0;
      while i < PORT_TABLE_MAX
        invariant i <= PORT_TABLE_MAX
        invariant PortFind(Abs(), name, 0) == PortFind(Abs(), name, i)
      {
        if ports[i].Some? && NameOf(ports[i].value) == name {
          return;
        }
        i := i + 1;
      }
    }

    method PipeHandleCountLocked(o: ObjId, rights: Rights, delta: int)
      requires o in objs
      modifies this`objs, this`ports
      ensures Abs() == PipeHandleCount(old(Abs()), o, rights, delta)
    {
      var k := objs[o];
      if k.typ != Pipe && k.typ != Port {
        assert objs == objs[o := k];
        return;
      }
      if Read in rights {
        k := k.(readers := k.readers + delta);
        if k.typ == Port && delta < 0 && k.readers == 0 {
          ghost var before := ports;
          var i := 0;
          while i < PORT_TABLE_MAX
            invariant i <= PORT_TABLE_MAX && objs == old(objs)
            invariant forall j :: 0 <= j < i ==> ports[j] == if before[j] == Some(o) then None else before[j]
            invariant forall j :: i <= j < PORT_TABLE_MAX ==> ports[j] == before[j]
          {
            if ports[i] == Some(o) {
              ports := ports[i := None];
            }
            i := i + 1;
          }
          assert ports == Unpublish(before, o);
        }
      }
      if Write in rights {
        k := k.(writers := k.writers + delta);
      }
      objs := objs[o := k];
    }

    /** Point slot i at o and count it. */
    method PutLocked(p: Pid, i: nat, o: ObjId, rights: Rights)
      requires p in tables && i < NPROC_HANDLES && o in objs
      modifies this`objs, this`tables, this`ports
      ensures Abs() == Put(old(Abs()), p, i, o, rights)
    {
      tables := tables[p := tables[p][i := Used(o, rights)]];
      objs := objs[o := objs[o].(refcount := objs[o].refcount + 1)];
      PipeHandleCountLocked(o, rights, 1);
    }

    /** Count down a handle that is gone. */
    method ForgetLocked(o: ObjId, rights: Rights)
      requires o in objs
      modifies this`objs, this`ports
      ensures Abs() == Forget(old(Abs()), o, rights)
    {
      PipeHandleCountLocked(o, rights, -1);
      objs := objs[o := objs[o].(refcount := objs[o].refcount - 1)];
    }

    method HandleInstallLocked(p: Pid, o: ObjId, rights: Rights) returns (h: int)
      requires o in objs
      modifies this`objs, this`tables, this`ports
      ensures (Abs(), h) == Install(old(Abs()), p, o, rights)
    {
      if p !in tables {
        return -EBADF;
      }
      var i := 0;
      while i < NPROC_HANDLES
        invariant i <= NPROC_HANDLES && tables == old(tables) && Abs() == old(Abs())
        invariant FirstFree(tables[p], 0) == FirstFree(tables[p], i)
      {
        if tables[p][i].Free? {
          PutLocked(p, i, o, rights);
          return i;
        }
        i := i + 1;
      }
      return -EMFILE;
    }

    /** Empty slot i and count its handle down. */
    method DropLocked(p: Pid, i: nat)
      requires p in tables && i < NPROC_HANDLES && tables[p][i].Used? && tables[p][i].obj in objs
      modifies this`objs, this`tables, this`ports
      ensures Abs() == Drop(old(Abs()), p, i)
    {
      var e := tables[p][i];
      tables := tables[p := tables[p][i := Free]];
      ForgetLocked(e.obj, e.rights);
    }

    // ----- system calls --------------------------------------------------------------------

    method HandleDup(p: Pid, handle: int, newRights: Rights) returns (h: int)
      requires Valid()
      modifies this
      ensures Valid() && (Abs(), h) == Dup(old(Abs()), p, handle, newRights)
    {
      hide Inv;
      DupInv(Abs(), p, handle, newRights);
      if p !in tables || handle < 0 || handle >= NPROC_HANDLES || tables[p][handle].Free? {
        return -EBADF;
      }
      var src := tables[p][handle];
      if Duplicate !in src.rights {
        return -EPERM;
      }
      NamedLive(Abs(), p, handle);
      h := HandleInstallLocked(p, src.obj, newRights * ALL * src.rights);
    }

    /** The freed object, if any, is left with p: kobj_free runs after the unlock. */
    method HandleClose(p: Pid, handle: int) returns (ret: int)
      requires Valid() && ActOf(Abs(), p).Idle?
      modifies this
      ensures Valid() && (Abs(), ret) == Close(old(Abs()), p, handle)
    {
      hide Inv;
      CloseInv(Abs(), p, handle);
      if p !in tables || handle < 0 || handle >= NPROC_HANDLES || tables[p][handle].Free? {
        return -EBADF;
      }
      NamedLive(Abs(), p, handle);
      var o := tables[p][handle].obj;
      DropLocked(p, handle);
      if objs[o].refcount <= 0 {
        acts := acts[p := Freeing(o)];
      }
      return 0;
    }

    method CapGrant(p: Pid, target: Pid, v: Verdict, handle: int, rights: Rights) returns (h: int)
      requires Valid()
      modifies this
      ensures Valid() && (Abs(), h) == Grant(old(Abs()), p, target, v, handle, rights)
    {
      hide Inv;
      GrantInv(Abs(), p, target, v, handle, rights);
      if p !in tables || handle < 0 || handle >= NPROC_HANDLES {
        return -EBADF;
      }
      if v == Denied {
        return -EPERM;
      }
      if v == Missing {
        return -ESRCH;
      }
      if target !in tables {
        return -ENOMEM;
      }
      var src := tables[p][handle];
      if src.Free? {
        return -EBADF;
      }
      if Transfer !in src.rights {
        return -EPERM;
      }
      NamedLive(Abs(), p, handle);
      h := HandleInstallLocked(target, src.obj, rights * ALL * src.rights);
    }

    method PinHandle(p: Pid, handle: int, need: Rights) returns (ret: int)
      requires Valid() && ActOf(Abs(), p).Idle?
      modifies this
      ensures Valid() && (Abs(), ret) == Pin(old(Abs()), p, handle, need)
    {
      hide Inv;
      PinInv(Abs(), p, handle, need);
      if p !in tables || handle < 0 || handle >= NPROC_HANDLES || tables[p][handle].Free? {
        return -EBADF;
      }
      var src := tables[p][handle];
      if !(need <= src.rights) {
        return -EPERM;
      }
      NamedLive(Abs(), p, handle);
      objs := objs[src.obj := objs[src.obj].(refcount := objs[src.obj].refcount + 1)];
      acts := acts[p := Pinned(src.obj, need)];
      return 0;
    }

    method ObjUnref(p: Pid)
      requires Valid() && ActOf(Abs(), p).Pinned?
      modifies this
      ensures Valid() && Abs() == Unpin(old(Abs()), p)
    {
      hide Inv;
      UnpinInv(Abs(), p);
      PinLive(Abs(), p);
      var o := acts[p].obj;
      objs := objs[o := objs[o].(refcount := objs[o].refcount - 1)];
      acts := acts[p := Idle];
      if objs[o].refcount <= 0 {
        acts := acts[p := Freeing(o)];
      }
    }

    /** kobj_free, which keeps the live count of the type in step. */
    method KobjFree(o: ObjId)
      requires o in objs
      modifies this`objs, this`live
      ensures Abs() == FreeObj(old(Abs()), o)
    {
      var t := objs[o].typ;
      live := live[t := (if t in live then live[t] else 0) - 1];
      objs := objs - {o};
    }

    /** One round of the loop below. */
    method DestroySlotLocked(p: Pid, i: nat)
      requires Valid() && p in tables && i < NPROC_HANDLES && tables[p][i].Used?
      modifies this`objs, this`tables, this`ports, this`live
      ensures Valid() && p in tables && Abs() == ProcessSteps.DestroySlot(old(Abs()), p, i)
    {
      NamedLive(Abs(), p, i);
      ProcessSteps.DestroySlotInv(Abs(), p, i);
      hide Inv;
      var o := tables[p][i].obj;
      DropLocked(p, i);
      if objs[o].refcount <= 0 {
        KobjFree(o);
      }
    }

    /** The loop: every handle of the table is dropped. */
    method DropAllLocked(p: Pid)
      requires Valid() && p in tables
      modifies this`objs, this`tables, this`ports, this`live
      ensures Valid() && Abs() == DestroyFrom(old(Abs()), p, 0)
    {
      hide Inv, ProcessSteps.DestroySlot, DestroyFrom;
      var i := 0;
      ghost var target := DestroyFrom(Abs(), p, 0);
      while i < NPROC_HANDLES
        invariant i <= NPROC_HANDLES && Valid() && p in tables
        invariant DestroyFrom(Abs(), p, i) == target
      {
        ProcessSteps.DestroyUnfold(Abs(), p, i);
        if tables[p][i].Used? {
          DestroySlotLocked(p, i);
        }
        i := i + 1;
      }
      ProcessSteps.DestroyEnd(Abs(), p);
    }

    /** process_handles_destroy: one critical section for the whole table. */
    method HandlesDestroy(p: Pid)
      requires Valid()
      modifies this
      ensures Valid() && Abs() == DestroyTable(old(Abs()), p)
    {
      ProcessSteps.DestroyTableInv(Abs(), p);
      hide Inv, DestroyFrom;
      if p in tables {
        DropAllLocked(p);
        tables := tables - {p};
      }
    }

    // ----- sys_port_send_caps -------------------------------------------------------------------

    /** The install loop and its outcome. */
    method InstallFds(p: Pid, rcv: Pid, fds: seq<int>) returns (slots: seq<nat>, err: int)
      requires Valid() && p in tables && rcv in tables
      modifies this`objs, this`tables, this`ports
      ensures (Abs(), slots, err) == InstallAll(old(Abs()), p, rcv, fds, [])
    {
      hide Inv;
      slots, err := [], 0;
      var i := 0;
      while i < |fds|
        invariant 0 <= i == |slots| <= |fds| && err == 0
        invariant Valid() && p in tables && rcv in tables
        invariant InstallAll(old(Abs()), p, rcv, fds, []) == InstallAll(Abs(), p, rcv, fds, slots)
      {
        var fd := fds[i];
        if fd < 0 || fd >= NPROC_HANDLES || tables[p][fd].Free? {
          err := -EBADF;
          return;
        }
        PortSend.CopyOne(Abs(), p, fd, rcv);
        NamedLive(Abs(), p, fd);
        var h := HandleInstallLocked(rcv, tables[p][fd].obj, tables[p][fd].rights);
        if h < 0 {
          err := h;
          return;
        }
        slots := slots + [h];
        i := i + 1;
      }
    }

    /** The unwind loop.  `toFree` is what kobj_free would get after the unlock. */
    method UnwindSlots(p: Pid, rcv: Pid, slots: seq<nat>, ghost s0: State) returns (toFree: Option<ObjId>)
      requires Inv(s0) && Valid() && PortSend.Frame(s0, Abs()) && PortSend.Lent(s0.tables, tables, p, rcv, slots)
      modifies this`objs, this`tables, this`ports
      ensures Abs() == s0 && toFree == None
    {
      hide Inv;
      toFree := None;
      var i := 0;
      while i < |slots|
        invariant 0 <= i <= |slots| && toFree == None
        invariant Valid() && PortSend.Frame(s0, Abs()) && PortSend.Lent(s0.tables, tables, p, rcv, slots[i..])
      {
        var j := PortSend.OriginalStays(s0.tables, tables, p, rcv, slots[i..]);
        PortSend.TakeBackOne(s0.tables, tables, p, rcv, slots[i..]);
        PortSend.DropCopy(Abs(), p, j, rcv, slots[i]);
        PortSend.FrameTrans(s0, Abs(), Drop(Abs(), rcv, slots[i]));
        NamedLive(Abs(), rcv, slots[i]);
        var o := tables[rcv][slots[i]].obj;
        assert slots[i..][1..] == slots[i + 1..];
        DropLocked(rcv, slots[i]);
        if objs[o].refcount <= 0 {
          toFree := Some(o);
        }
        i := i + 1;
      }
      assert slots[i..] == [];
      PortSend.NothingLent(s0, Abs(), p, rcv);
    }

    method PortSendCaps(p: Pid, alive: bool, m: Message, fds: seq<int>) returns (ret: int, toFree: Option<ObjId>)
      requires Valid() && ActOf(Abs(), p).Pinned? && p in tables
      modifies this
      ensures Valid() && SendResult(Abs(), ret, toFree) == SendCaps(old(Abs()), p, alive, m, fds)
    {
      hide Inv;
      PinLive(Abs(), p);
      toFree := None;
      var o := acts[p].obj;
      if |fds| > MAX_SEND_FDS || objs[o].typ != Port {
        return -EINVAL, None;
      }
      if !alive {
        return -ESRCH, None;
      }
      var rcv := objs[o].owner;
      if rcv !in tables {
        return -ENOMEM, None;
      }
      PortSend.SendCapsInv(Abs(), p, alive, m, fds);
      PortSend.StartLending(Abs(), p, rcv, fds);
      PortSend.LendAll(Abs(), Abs(), p, rcv, fds, []);
      var slots, err := InstallFds(p, rcv, fds);
      PortSend.UnwindRestores(old(Abs()), Abs(), p, rcv, slots);
      ret := err;
      if err == 0 {
        if objs[o].readers == 0 {
          ret := -EPIPE;
        } else if |objs[o].queue| >= PORT_QUEUE_MAX {
          ret := -EAGAIN;
        } else {
          objs := objs[o := objs[o].(queue := objs[o].queue + [Stamp(m, p, slots)])];
          return MESSAGE_SIZE, None;
        }
      }
      toFree := UnwindSlots(p, rcv, slots, old(Abs()));
    }

    // ----- creation ---------------------------------------------------------------------------------

    method InstallPipeEnds(p: Pid) returns (rfd: int, wfd: int)
      requires Valid() && ActOf(Abs(), p).Creating?
      modifies this
      ensures Valid() && (Abs(), rfd, wfd) == InstallPipe(old(Abs()), p)
    {
      InstallPipeInv(Abs(), p);
      OwnedHasNoRef(Abs(), p);
      hide Inv;
      var o := acts[p].obj;
      rfd := HandleInstallLocked(p, o, PIPE_READ_END);
      if rfd < 0 {
        acts := acts[p := Freeing(o)];
        return rfd, rfd;
      }
      wfd := HandleInstallLocked(p, o, PIPE_WRITE_END);
      acts := acts[p := Idle];
    }

    /** process_install_stdio, after the console was allocated. */
    method InstallStdioLocked(creator: Pid, p: Pid)
      requires Valid() && ActOf(Abs(), creator).Creating? && p in tables && Obj(Abs(), acts[creator].obj).typ == Console
      modifies this
      ensures Valid() && Abs() == InstallStdio(old(Abs()), creator, p)
    {
      ProcessSteps.InstallStdioInv(Abs(), creator, p);
      OwnedHasNoRef(Abs(), creator);
      hide Inv;
      var o := acts[creator].obj;
      hide Displaced, Put;
      lost := lost + Displaced(tables[p][0]) + Displaced(tables[p][1]) + Displaced(tables[p][2]);
      var t := tables[p];
      t := t[0 := Used(o, {Read})];
      t := t[1 := Used(o, {Write})];
      t := t[2 := Used(o, {Write})];
      tables := tables[p := t];
      objs := objs[o := objs[o].(refcount := 3)];
      acts := acts[creator := Idle];
    }

    method PortLookupLocked(p: Pid, path: string, rights: Rights) returns (ret: int)
      requires Valid() && ActOf(Abs(), p).Idle?
      modifies this
      ensures Valid() && (Abs(), ret) == PortLookup(old(Abs()), p, path, rights)
    {
      hide Inv;
      PortSteps.PortLookupInv(Abs(), p, path, rights);
      var want := rights * ALL;
      var found := PortFindLocked(path);
      if Read !in want {
        if found == PORT_TABLE_MAX {
          return -ENOENT;
        }
        PortSteps.PublishedLive(Abs(), found);
        ret := HandleInstallLocked(p, ports[found].value, want - {Read});
        return;
      }
      if found < PORT_TABLE_MAX {
        return -EEXIST;
      }
      var slot := 0;
      while slot < PORT_TABLE_MAX && ports[slot].Some?
        invariant slot <= PORT_TABLE_MAX && FirstEmpty(ports, 0) == FirstEmpty(ports, slot)
      {
        slot := slot + 1;
      }
      if slot == PORT_TABLE_MAX {
        return -ENOSPC;
      }
      acts := acts[p := PortSlot(slot, path, want)];
      return 0;
    }

    /** The second half of a publication: the handle, then the entry. */
    method PublishAtLocked(p: Pid, a: Act) returns (ret: int)
      requires a.PortReady? && a.obj in objs
      modifies this`objs, this`tables, this`ports
      ensures var (s1, h) := Install(old(Abs()), p, a.obj, a.want);
              ret == h && Abs() == if h < 0 then s1 else s1.(ports := s1.ports[a.slot := Some(a.obj)])
    {
      hide Install;
      ret := HandleInstallLocked(p, a.obj, a.want);
      if ret >= 0 {
        ports := ports[a.slot := Some(a.obj)];
      }
    }

    method PortPublishLocked(p: Pid) returns (ret: int)
      requires Valid() && ActOf(Abs(), p).PortReady?
      modifies this
      ensures Valid() && (Abs(), ret) == PortPublish(old(Abs()), p)
    {
      PortSteps.PortPublishInv(Abs(), p);
      OwnedHasNoRef(Abs(), p);
      hide Inv, Install, PortFind;
      var a := acts[p];
      var found := PortFindLocked(a.path);
      if found < PORT_TABLE_MAX {
        acts := acts[p := Freeing(a.obj)];
        return -EEXIST;
      }
      ret := PublishAtLocked(p, a);
      acts := acts[p := if ret >= 0 then Idle else Freeing(a.obj)];
    }

    /** Port branch of sys_object_write, one pass under the lock. */
    method PortWriteLocked(p: Pid, m: Message) returns (ret: int)
      requires Valid() && ActOf(Abs(), p).Pinned?
      modifies this
      ensures Valid() && (Abs(), ret) == PortWrite(old(Abs()), p, m)
    {
      hide Inv;
      PortSteps.PortWriteInv(Abs(), p, m);
      PinLive(Abs(), p);
      var o := acts[p].obj;
      var k := objs[o];
      if k.typ != Port {
        return -EINVAL;
      }
      if k.readers == 0 {
        return -EPIPE;
      }
      if |k.queue| >= PORT_QUEUE_MAX {
        return -EAGAIN;
      }
      objs := objs[o := k.(queue := k.queue + [m.(from := p)])];
      return MESSAGE_SIZE;
    }

    /** Port branch of sys_object_read, one pass under the lock. */
    method PortReadLocked(p: Pid) returns (ret: int, m: Option<Message>)
      requires Valid() && ActOf(Abs(), p).Pinned?
      modifies this
      ensures Valid() && (Abs(), ret, m) == PortRead(old(Abs()), p)
    {
      hide Inv;
      PortSteps.PortReadInv(Abs(), p);
      PinLive(Abs(), p);
      var o := acts[p].obj;
      var k := objs[o];
      if k.typ != Port {
        return -EINVAL, None;
      }
      if |k.queue| > 0 {
        objs := objs[o := k.(queue := k.queue[1..])];
        return MESSAGE_SIZE, Some(k.queue[0]);
      }
      return if k.writers == 0 then 0 else -EAGAIN, None;
    }

    method RedirectChildFd(p: Pid, owner: Pid, child: Pid, slot: int, fd: int) returns (ret: int)
      requires Valid() && ActOf(Abs(), p).Idle?
      modifies this
      ensures Valid() && (Abs(), ret) == Redirect(old(Abs()), p, owner, child, slot, fd)
    {
      hide Inv, Put, Forget;
      ProcessSteps.RedirectInv(Abs(), p, owner, child, slot, fd);
      if slot < 0 || slot >= NPROC_HANDLES || fd < 0 || fd >= NPROC_HANDLES || owner !in tables {
        return -EBADF;
      }
      ProcessSteps.EnsureTableInv(Abs(), child);
      if child !in tables {
        tables := tables[child := EmptyTable()];
      }
      var src := tables[owner][fd];
      if src.Free? {
        return -EBADF;
      }
      var prev := tables[child][slot];
      NamedLive(Abs(), owner, fd);
      if prev.Used? {
        NamedLive(Abs(), child, slot);
      }
      PutKeepsObjects(Abs(), child, slot, src.obj, src.rights);
      PutLocked(child, slot, src.obj, src.rights);
      if prev.Used? {
        ForgetKeepsObjects(Abs(), prev.obj, prev.rights);
        ForgetLocked(prev.obj, prev.rights);
        if objs[prev.obj].refcount <= 0 {
          acts := acts[p := Freeing(prev.obj)];
        }
      }
      return 0;
    }
  }
}
