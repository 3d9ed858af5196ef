/** The capability object manager of kernel/core/object.c as a transition system.

    A `State` is everything `object_lock` guards, plus, for each process, the
    part of a system call that is still in flight between two critical sections
    (its `Act`).  Each function below is one critical section: it maps the state
    on entry to the state on exit and the value the C code returns. */
module HandleSpec {
  import opened Basics

  /** One bit of the 32-bit rights word (include/abi/object.h).  `Reserved`
      stands for the bits no constant names. */
  datatype Right =
    | Read | Write | Wait | Duplicate | Transfer | Destroy | Create | Mutate
    | Reserved(bit: nat)

  type Rights = set<Right>

  /** OS1_RIGHT_ALL: every named right except Create. */
  const ALL: Rights := {Read, Write, Wait, Duplicate, Transfer, Destroy, Mutate}

  const NPROC_HANDLES: nat := 32
  const PORT_TABLE_MAX: nat := 16
  const PORT_QUEUE_MAX: nat := 32
  const PORT_NAME_MAX: nat := 32
  const MAX_SEND_FDS: nat := 4
  const MESSAGE_SIZE: int := 88

  const EPERM: int := 1
  const ENOENT: int := 2
  const ESRCH: int := 3
  const EBADF: int := 9
  const EAGAIN: int := 11
  const ENOMEM: int := 12
  const EEXIST: int := 17
  const EINVAL: int := 22
  const EMFILE: int := 24
  const ENOSPC: int := 28
  const EPIPE: int := 32

  type Pid = nat
  type ObjId = nat

  datatype Slot = Free | Used(obj: ObjId, rights: Rights)

  type Table = t: seq<Slot> | |t| == NPROC_HANDLES witness seq(NPROC_HANDLES, i => Free)

  type PortIndex = i: nat | i < PORT_TABLE_MAX

  type PortTable = t: seq<Option<ObjId>> | |t| == PORT_TABLE_MAX
    witness seq(PORT_TABLE_MAX, i => None)

  function EmptyTable(): (t: Table)
    ensures forall i :: 0 <= i < |t| ==> t[i] == Free
  {
    seq(NPROC_HANDLES, i => Free)
  }

  datatype ObjType = File | Process | RegKey | Window | Console | Pipe | Port

  /** `payload` is the message's 64 bytes seen as ints: the view in which
      sys_port_send_caps rewrites the leading entries. */
  datatype Message = Message(from: Pid, kind: int, data1: int, data2: int, payload: seq<int>)

  /** `readers` and `writers` are the endpoint counts: readers/writers of a
      pipe, receivers/senders of a port; they stay 0 for the other types.
      `name`, `owner` and `queue` are live for ports only. */
  datatype KObject = KObject(
    typ: ObjType, refcount: int, readers: int, writers: int,
    name: string, owner: Pid, queue: seq<Message>)

  /** What a process holds between two critical sections of one system call.
      Pinned: a reference taken by pin_handle, in a call that asked for `need`.  The others own an object that
      no slot names: Creating and PortReady before its first install, Freeing
      after its last reference is gone.  PortSlot owns nothing but remembers the
      port_table index chosen before the lock was dropped. */
  datatype Act =
    | Idle
    | Pinned(obj: ObjId, need: Rights)
    | Creating(obj: ObjId)
    | Freeing(obj: ObjId)
    | PortSlot(slot: PortIndex, path: string, want: Rights)
    | PortReady(obj: ObjId, slot: PortIndex, path: string, want: Rights)

  /** `lost` is history the kernel does not keep: the handles that were
      overwritten without being counted down. */
  datatype State = State(
    objs: map<ObjId, KObject>,
    tables: map<Pid, Table>,
    ports: PortTable,
    acts: map<Pid, Act>,
    live: map<ObjType, int>,
    lost: seq<Slot>)

  function ActOf(s: State, p: Pid): Act {
    if p in s.acts then s.acts[p] else Idle
  }

  function SetAct(s: State, p: Pid, a: Act): State {
    s.(acts := s.acts[p := a])
  }

  predicate PinnedOn(a: Act, o: ObjId) {
    a.Pinned? && a.obj == o
  }

  /** The act owns an object that nothing refers to. */
  predicate IsLocal(a: Act) {
    a.Creating? || a.Freeing? || a.PortReady?
  }

  /** The object behind a pointer.  The default is never reached from a state
      that satisfies the invariant. */
  function Obj(s: State, o: ObjId): KObject {
    if o in s.objs then s.objs[o] else NewObject(File, "", 0)
  }

  function LiveCount(s: State, t: ObjType): int {
    if t in s.live then s.live[t] else 0
  }

  predicate HasEndpoints(t: ObjType) {
    t == Pipe || t == Port
  }

  // ----- kobj_alloc, kobj_free ------------------------------------------------

  function NewObject(t: ObjType, name: string, owner: Pid): KObject {
    KObject(t, 0, 0, 0, name, owner, [])
  }

  function AllocObj(s: State, o: ObjId, k: KObject): State {
    s.(objs := s.objs[o := k], live := s.live[k.typ := LiveCount(s, k.typ) + 1])
  }

  function FreeObj(s: State, o: ObjId): State {
    var t := Obj(s, o).typ;
    s.(objs := s.objs - {o}, live := s.live[t := LiveCount(s, t) - 1])
  }

  // ----- pipe_handle_count, handle_install_locked and its inverse ---------------

  function Unpublish(ports: PortTable, o: ObjId): (r: PortTable)
    ensures forall i :: 0 <= i < |r| ==> r[i] == if ports[i] == Some(o) then None else ports[i]
  {
    seq(|ports|, i requires 0 <= i < |ports| => if ports[i] == Some(o) then None else ports[i])
  }

  function CountEndpoints(k: KObject, rights: Rights, delta: int): KObject {
    if !HasEndpoints(k.typ) then k
    else k.(readers := k.readers + (if Read in rights then delta else 0),
            writers := k.writers + (if Write in rights then delta else 0))
  }

  /** pipe_handle_count(o, rights, delta): a port that loses its last receiver
      is unpublished in the same critical section. */
  function PipeHandleCount(s: State, o: ObjId, rights: Rights, delta: int): State {
    var k := CountEndpoints(Obj(s, o), rights, delta);
    s.(objs := s.objs[o := k],
       ports := if k.typ == Port && Read in rights && delta < 0 && k.readers == 0
                then Unpublish(s.ports, o) else s.ports)
  }

  function AddRef(s: State, o: ObjId, delta: int): State {
    s.(objs := s.objs[o := Obj(s, o).(refcount := Obj(s, o).refcount + delta)])
  }

  function SetSlot(s: State, p: Pid, i: nat, slot: Slot): State
    requires p in s.tables && i < NPROC_HANDLES
  {
    s.(tables := s.tables[p := s.tables[p][i := slot]])
  }

  /** Point slot i at o, count one more reference and one more endpoint. */
  function Put(s: State, p: Pid, i: nat, o: ObjId, rights: Rights): State
    requires p in s.tables && i < NPROC_HANDLES
  {
    PipeHandleCount(AddRef(SetSlot(s, p, i, Used(o, rights)), o, 1), o, rights, 1)
  }

  /** Count one endpoint and one reference less for a handle that is gone. */
  function Forget(s: State, o: ObjId, rights: Rights): State {
    AddRef(PipeHandleCount(s, o, rights, -1), o, -1)
  }

  /** Empty slot i.  Freeing the object when its count reaches zero is left to
      the caller. */
  function Drop(s: State, p: Pid, i: nat): State
    requires p in s.tables && i < NPROC_HANDLES && s.tables[p][i].Used?
  {
    Forget(SetSlot(s, p, i, Free), s.tables[p][i].obj, s.tables[p][i].rights)
  }

  /** Index of the first free slot at or after i, or |t|. */
  function FirstFree(t: seq<Slot>, i: nat): (r: nat)
    requires i <= |t|
    ensures i <= r <= |t|
    ensures forall j :: i <= j < r ==> t[j].Used?
    ensures r < |t| ==> t[r].Free?
    decreases |t| - i
  {
    if i == |t| || t[i].Free? then i else FirstFree(t, i + 1)
  }

  function Install(s: State, p: Pid, o: ObjId, rights: Rights): (State, int) {
    if p !in s.tables then (s, -EBADF) else
    var i := FirstFree(s.tables[p], 0);
    if i < NPROC_HANDLES then (Put(s, p, i, o, rights), i) else (s, -EMFILE)
  }

  /** After a reference was dropped: the process takes an object nothing refers
      to any more and frees it once the lock is released. */
  function Settle(s: State, p: Pid, o: ObjId): State {
    if Obj(s, o).refcount <= 0 then SetAct(s, p, Freeing(o)) else s
  }

  // ----- handle system calls ----------------------------------------------------

  predicate ValidHandle(s: State, p: Pid, h: int) {
    p in s.tables && 0 <= h < NPROC_HANDLES && s.tables[p][h].Used?
  }

  function EnsureTable(s: State, p: Pid): State {
    if p in s.tables then s else s.(tables := s.tables[p := EmptyTable()])
  }

  /** The one critical section of handle_create for FILE, PROCESS, REGKEY and
      WINDOW: install the fresh object, or hand it to kobj_free. */
  function InstallNew(s: State, p: Pid, rights: Rights): (State, int)
    requires ActOf(s, p).Creating?
  {
    var o := s.acts[p].obj;
    var (s1, h) := Install(s, p, o, rights * ALL);
    (SetAct(s1, p, if h < 0 then Freeing(o) else Idle), h)
  }

  function Dup(s: State, p: Pid, h: int, newRights: Rights): (State, int) {
    if !ValidHandle(s, p, h) then (s, -EBADF) else
    var src := s.tables[p][h];
    if Duplicate !in src.rights then (s, -EPERM)
    else Install(s, p, src.obj, newRights * ALL * src.rights)
  }

  function Close(s: State, p: Pid, h: int): (State, int) {
    if !ValidHandle(s, p, h) then (s, -EBADF)
    else (Settle(Drop(s, p, h), p, s.tables[p][h].obj), 0)
  }

  /** What process_ipc_allowed and then __process_find_by_pid say of a target. */
  datatype Verdict = Denied | Missing | Found

  function Grant(s: State, p: Pid, target: Pid, v: Verdict, h: int, rights: Rights): (State, int) {
    if p !in s.tables || !(0 <= h < NPROC_HANDLES) then (s, -EBADF) else
    if v == Denied then (s, -EPERM) else
    if v == Missing then (s, -ESRCH) else
    if target !in s.tables then (s, -ENOMEM) else
    if s.tables[p][h].Free? then (s, -EBADF) else
    var src := s.tables[p][h];
    if Transfer !in src.rights then (s, -EPERM)
    else Install(s, target, src.obj, rights * ALL * src.rights)
  }

  const PIPE_READ_END: Rights := {Read, Transfer, Duplicate}
  const PIPE_WRITE_END: Rights := {Write, Transfer, Duplicate}

  /** sys_pipe's critical section: both ends, or as much as fits. */
  function InstallPipe(s: State, p: Pid): (State, int, int)
    requires ActOf(s, p).Creating?
  {
    var o := s.acts[p].obj;
    var (s1, rfd) := Install(s, p, o, PIPE_READ_END);
    if rfd < 0 then (SetAct(s1, p, Freeing(o)), rfd, rfd) else
    var (s2, wfd) := Install(s1, p, o, PIPE_WRITE_END);
    (SetAct(s2, p, Idle), rfd, wfd)
  }

  function Pin(s: State, p: Pid, h: int, need: Rights): (State, int) {
    if !ValidHandle(s, p, h) then (s, -EBADF) else
    var src := s.tables[p][h];
    if !(need <= src.rights) then (s, -EPERM)
    else (SetAct(AddRef(s, src.obj, 1), p, Pinned(src.obj, need)), 0)
  }

  /** obj_unref */
  function Unpin(s: State, p: Pid): State
    requires ActOf(s, p).Pinned?
  {
    var o := s.acts[p].obj;
    Settle(SetAct(AddRef(s, o, -1), p, Idle), p, o)
  }

  /** kobj_free after the lock was released. */
  function Release(s: State, p: Pid): State
    requires ActOf(s, p).Freeing?
  {
    SetAct(FreeObj(s, s.acts[p].obj), p, Idle)
  }

  // ----- named ports --------------------------------------------------------------

  /** The name a port keeps: snprintf into PORT_NAME_MAX bytes. */
  function Truncate(path: string): string {
    if |path| < PORT_NAME_MAX then path else path[..PORT_NAME_MAX - 1]
  }

  predicate Published(s: State, i: nat, name: string) {
    i < PORT_TABLE_MAX && s.ports[i].Some? && Obj(s, s.ports[i].value).name == name
  }

  /** port_find_locked from index i on: PORT_TABLE_MAX when nothing matches. */
  function PortFind(s: State, name: string, i: nat): (r: nat)
    requires i <= PORT_TABLE_MAX
    ensures i <= r <= PORT_TABLE_MAX
    ensures r < PORT_TABLE_MAX ==> Published(s, r, name)
    ensures forall j :: i <= j < r ==> !Published(s, j, name)
    decreases PORT_TABLE_MAX - i
  {
    if i == PORT_TABLE_MAX || Published(s, i, name) then i else PortFind(s, name, i + 1)
  }

  function FirstEmpty(ports: PortTable, i: nat): (r: nat)
    requires i <= PORT_TABLE_MAX
    ensures i <= r <= PORT_TABLE_MAX
    ensures forall j :: i <= j < r ==> ports[j].Some?
    ensures r < PORT_TABLE_MAX ==> ports[r].None?
    decreases PORT_TABLE_MAX - i
  {
    if i == PORT_TABLE_MAX || ports[i].None? then i else FirstEmpty(ports, i + 1)
  }

  /** First critical section of handle_create on OS1_NS_PORT.  Return 0 with
      act PortSlot means: go on and allocate. */
  function PortLookup(s: State, p: Pid, path: string, rights: Rights): (State, int) {
    var want := rights * ALL;
    var found := PortFind(s, path, 0);
    if Read !in want then
      if found == PORT_TABLE_MAX then (s, -ENOENT)
      else Install(s, p, s.ports[found].value, want - {Read})
    else if found < PORT_TABLE_MAX then (s, -EEXIST)
    else
      var slot := FirstEmpty(s.ports, 0);
      if slot == PORT_TABLE_MAX then (s, -ENOSPC)
      else (SetAct(s, p, PortSlot(slot, path, want)), 0)
  }

  /** The unlocked middle: allocate the kport and its kobject. */
  function PortAlloc(s: State, p: Pid, o: ObjId): State
    requires ActOf(s, p).PortSlot?
  {
    var a := s.acts[p];
    SetAct(AllocObj(s, o, NewObject(Port, Truncate(a.path), p)), p, PortReady(o, a.slot, a.path, a.want))
  }

  /** Second critical section: recheck the name, install, publish at the slot
      chosen earlier without rechecking that slot. */
  function PortPublish(s: State, p: Pid): (State, int)
    requires ActOf(s, p).PortReady?
  {
    var a := s.acts[p];
    if PortFind(s, a.path, 0) < PORT_TABLE_MAX then (SetAct(s, p, Freeing(a.obj)), -EEXIST) else
    var (s1, h) := Install(s, p, a.obj, a.want);
    if h < 0 then (SetAct(s1, p, Freeing(a.obj)), h)
    else (SetAct(s1.(ports := s1.ports[a.slot := Some(a.obj)]), p, Idle), h)
  }

  // ----- process life cycle ---------------------------------------------------------

  /** What overwriting a slot loses. */
  function Displaced(slot: Slot): seq<Slot> {
    if slot.Used? then [slot] else []
  }

  /** process_install_stdio's critical section: `creator` holds the console it
      just allocated, `p` is the new process.  Slots 0 to 2 are overwritten
      whatever they hold: the table was published in an earlier critical section,
      and a grant may have come in between. */
  function InstallStdio(s: State, creator: Pid, p: Pid): State
    requires ActOf(s, creator).Creating? && p in s.tables
  {
    var o := s.acts[creator].obj;
    var t := s.tables[p];
    SetAct(s.(tables := s.tables[p := t[0 := Used(o, {Read})][1 := Used(o, {Write})][2 := Used(o, {Write})]],
              objs := s.objs[o := Obj(s, o).(refcount := 3)],
              lost := s.lost + Displaced(t[0]) + Displaced(t[1]) + Displaced(t[2])),
           creator, Idle)
  }

  /** process_redirect_child_fd_from, run by `p`. */
  function Redirect(s: State, p: Pid, owner: Pid, child: Pid, slot: int, fd: int): (State, int) {
    if !(0 <= slot < NPROC_HANDLES) || !(0 <= fd < NPROC_HANDLES) || owner !in s.tables then (s, -EBADF) else
    var s0 := EnsureTable(s, child);
    var src := s0.tables[owner][fd];
    if src.Free? then (s0, -EBADF) else
    var prev := s0.tables[child][slot];
    var s1 := Put(s0, child, slot, src.obj, src.rights);
    if prev.Free? then (s1, 0)
    else (Settle(Forget(s1, prev.obj, prev.rights), p, prev.obj), 0)
  }

  /** The loop of process_handles_destroy from slot i on: close every handle
      and free, still under the lock, what nothing refers to any more. */
  function DestroyFrom(s: State, p: Pid, i: nat): (r: State)
    requires p in s.tables && i <= NPROC_HANDLES
    decreases NPROC_HANDLES - i
  {
    if i == NPROC_HANDLES then s
    else if s.tables[p][i].Free? then DestroyFrom(s, p, i + 1)
    else
      var o := s.tables[p][i].obj;
      var s1 := Drop(s, p, i);
      DestroyFrom(if Obj(s1, o).refcount <= 0 then FreeObj(s1, o) else s1, p, i + 1)
  }

  function DestroyTable(s: State, p: Pid): State {
    if p !in s.tables then s else
    var s1 := DestroyFrom(s, p, 0);
    s1.(tables := s1.tables - {p})
  }

  // ----- port messages ------------------------------------------------------------------

  function Enqueue(s: State, o: ObjId, m: Message): State {
    s.(objs := s.objs[o := Obj(s, o).(queue := Obj(s, o).queue + [m])])
  }

  /** Port branch of sys_object_write, one pass of its loop; -EAGAIN stands for
      going to sleep and coming back. */
  function PortWrite(s: State, p: Pid, m: Message): (State, int)
    requires ActOf(s, p).Pinned?
  {
    var o := s.acts[p].obj;
    var k := Obj(s, o);
    if k.typ != Port then (s, -EINVAL)
    else if k.readers == 0 then (s, -EPIPE)
    else if |k.queue| < PORT_QUEUE_MAX then (Enqueue(s, o, m.(from := p)), MESSAGE_SIZE)
    else (s, -EAGAIN)
  }

  /** Port branch of sys_object_read, one pass of its loop. */
  function PortRead(s: State, p: Pid): (State, int, Option<Message>)
    requires ActOf(s, p).Pinned?
  {
    var o := s.acts[p].obj;
    var k := Obj(s, o);
    if k.typ != Port then (s, -EINVAL, None)
    else if |k.queue| > 0 then (s.(objs := s.objs[o := k.(queue := k.queue[1..])]), MESSAGE_SIZE, Some(k.queue[0]))
    else if k.writers == 0 then (s, 0, None)
    else (s, -EAGAIN, None)
  }

  /** sys_port_send_caps, the install loop from index |done| on: the state, the
      receiver slots taken so far and the error, 0 when every handle went in. */
  function InstallAll(s: State, p: Pid, rcv: Pid, fds: seq<int>, done: seq<nat>): (State, seq<nat>, int)
    requires rcv in s.tables && |done| <= |fds|
    decreases |fds| - |done|
  {
    if |done| == |fds| then (s, done, 0) else
    var fd := fds[|done|];
    if !ValidHandle(s, p, fd) then (s, done, -EBADF) else
    var src := s.tables[p][fd];
    var (s1, h) := Install(s, rcv, src.obj, src.rights);
    if h < 0 then (s1, done, h)
    else InstallAll(s1, p, rcv, fds, done + [h])
  }

  /** The unwind loop: drop the slots in the order they were taken.  `lost` is
      the last object seen to reach a zero count (to_free). */
  function Unwind(s: State, rcv: Pid, slots: seq<nat>, lost: Option<ObjId>): (State, Option<ObjId>)
    decreases |slots|
  {
    if slots == [] || !ValidHandle(s, rcv, slots[0]) then (s, lost) else
    var o := s.tables[rcv][slots[0]].obj;
    var s1 := Drop(s, rcv, slots[0]);
    Unwind(s1, rcv, slots[1..], if Obj(s1, o).refcount <= 0 then Some(o) else lost)
  }

  /** The message as queued: sender stamped, leading payload ints replaced. */
  function Stamp(m: Message, from: Pid, slots: seq<nat>): Message {
    m.(from := from,
       payload := slots + if |slots| <= |m.payload| then m.payload[|slots|..] else [])
  }

  datatype SendResult = SendResult(state: State, ret: int, toFree: Option<ObjId>)

  function Abort(s: State, rcv: Pid, slots: seq<nat>, err: int): SendResult {
    var (s1, lost) := Unwind(s, rcv, slots, None);
    SendResult(s1, err, lost)
  }

  /** From the receiver lookup to the unlock, both nested locks held. */
  function SendCaps(s: State, p: Pid, alive: bool, m: Message, fds: seq<int>): SendResult
    requires ActOf(s, p).Pinned?
  {
    var o := s.acts[p].obj;
    var rcv := Obj(s, o).owner;
    if |fds| > MAX_SEND_FDS || Obj(s, o).typ != Port then SendResult(s, -EINVAL, None) else
    if !alive then SendResult(s, -ESRCH, None) else
    if rcv !in s.tables then SendResult(s, -ENOMEM, None) else
    var (s1, slots, err) := InstallAll(s, p, rcv, fds, []);
    if err < 0 then Abort(s1, rcv, slots, err)
    else if Obj(s1, o).readers == 0 then Abort(s1, rcv, slots, -EPIPE)
    else if |Obj(s1, o).queue| >= PORT_QUEUE_MAX then Abort(s1, rcv, slots, -EAGAIN)
    else SendResult(Enqueue(s1, o, Stamp(m, p, slots)), MESSAGE_SIZE, None)
  }
}
