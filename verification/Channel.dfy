/** Pipes and ports as blocking channels: the loops of sys_object_read and
    sys_object_write, kthread_block and wake_up, as a machine whose steps are
    the critical sections of any number of threads.

    A pipe is a channel of bytes with capacity 4096; a port is a channel of
    messages with capacity 32 on which every read and write moves one message. */
module Channel {

  const EPIPE: int := 32
  const EAGAIN: int := 11

  type Tid = nat
  /** A byte of a pipe or one message of a port, as an opaque value. */
  type Item = nat

  /** The two wait queues of struct kpipe and struct kport. */
  datatype Queue = Rq | Wq

  /** What wake_up does: the code (kernel/sched/process.c) wakes the first
      sleeper; WakeAll is the broadcast its callers' comments describe. */
  datatype Policy = WakeFirst | WakeAll

  /** Where a thread is.  Block: about to call kthread_block.  Commit: inside
      it, holding the queue's lock, the still-block test has succeeded.  Wake:
      about to call wake_up.  `next` is where the thread goes on afterwards. */
  datatype PC =
    | Idle
    | Read(n: nat)
    | Write(op: nat, buf: seq<Item>, done: nat)
    | Block(q: Queue, next: PC)
    | Commit(q: Queue, next: PC)
    | Sleep(q: Queue, next: PC)
    | Wake(q: Queue, next: PC)

  /** One accepted item and the write call it came from. */
  datatype Entry = Entry(op: nat, val: Item)

  /** How a write ended; `open` tells whether a read end was open then. */
  datatype Outcome = Outcome(buf: seq<Item>, ret: int, open: bool)

  /** How a read of up to n items ended, and the channel it found: how much had
      been removed, how much was there, and how many write ends were open. */
  datatype Taken = Taken(n: nat, items: seq<Item>, ret: int, at: nat, had: nat, writers: nat)

  /** `accepted`, `removed`, `outcomes` and `taken` record the history: every item
      ever appended, every item ever taken, and the end of every write and read. */
  datatype State = State(
    contents: seq<Item>, readers: nat, writers: nat,
    rq: seq<Tid>, wq: seq<Tid>,
    pcs: map<Tid, PC>,
    accepted: seq<Entry>, removed: seq<Item>,
    nextOp: nat, outcomes: map<nat, Outcome>, taken: seq<Taken>)

  datatype Cmd =
    | BeginRead(t: Tid, n: nat)
    | BeginWrite(t: Tid, buf: seq<Item>)
    | TrySend(t: Tid, m: Item)
    | Step(t: Tid)
    | OpenReader(t: Tid)
    | OpenWriter(t: Tid)
    | CloseReader(t: Tid)
    | CloseWriter(t: Tid)

  function Pc(s: State, t: Tid): PC {
    if t in s.pcs then s.pcs[t] else Idle
  }

  function Sleepers(s: State, q: Queue): seq<Tid> {
    if q == Rq then s.rq else s.wq
  }

  function SetPc(s: State, t: Tid, pc: PC): State {
    s.(pcs := s.pcs[t := pc])
  }

  function SetSleepers(s: State, q: Queue, ts: seq<Tid>): State {
    if q == Rq then s.(rq := ts) else s.(wq := ts)
  }

  /** The still-block predicates of kthread_block. */
  predicate StillBlock(s: State, cap: nat, q: Queue) {
    if q == Rq then |s.contents| == 0 && s.writers > 0 else |s.contents| == cap && s.readers > 0
  }

  predicate LockFree(s: State, q: Queue) {
    forall t :: t in s.pcs ==> !(s.pcs[t].Commit? && s.pcs[t].q == q)
  }

  function Tagged(op: nat, vals: seq<Item>): (r: seq<Entry>)
    ensures |r| == |vals|
  {
    if vals == [] then [] else [Entry(op, vals[0])] + Tagged(op, vals[1..])
  }

  function Append(s: State, op: nat, chunk: seq<Item>): State {
    s.(contents := s.contents + chunk, accepted := s.accepted + Tagged(op, chunk))
  }

  /** A read of up to n items that found `before` returns. */
  function EndRead(s: State, before: State, n: nat, items: seq<Item>): State {
    s.(taken := s.taken + [Taken(n, items, |items|, |before.removed|, |before.contents|, before.writers)])
  }

  /** One pass of the read loop. */
  function ReadPass(s: State, t: Tid, n: nat): State {
    if |s.contents| > 0 then
      var take := if |s.contents| < n then |s.contents| else n;
      SetPc(EndRead(s.(contents := s.contents[take..], removed := s.removed + s.contents[..take]), s, n, s.contents[..take]),
            t, Wake(Wq, Idle))
    else if s.writers == 0 then SetPc(EndRead(s, s, n, []), t, Idle)
    else SetPc(s, t, Block(Rq, Read(n)))
  }

  /** A write call returns. */
  function Finish(s: State, t: Tid, op: nat, buf: seq<Item>, ret: int): State {
    SetPc(s.(outcomes := s.outcomes[op := Outcome(buf, ret, s.readers > 0)]), t, Idle)
  }

  /** One pass of the write loop. */
  function WritePass(s: State, cap: nat, t: Tid, op: nat, buf: seq<Item>, done: nat): State
    requires done <= |buf|
  {
    if done == |buf| then Finish(s, t, op, buf, done)
    else if s.readers == 0 then Finish(s, t, op, buf, if done > 0 then done else -EPIPE)
    else if |s.contents| >= cap then SetPc(s, t, Block(Wq, Write(op, buf, done)))
    else
      var space := cap - |s.contents|;
      var chunk := if |buf| - done < space then |buf| - done else space;
      SetPc(Append(s, op, buf[done..done + chunk]), t, Wake(Rq, Write(op, buf, done + chunk)))
  }

  /** wake_up(q), called by t. */
  function WakeUp(s: State, policy: Policy, q: Queue): State {
    var ts := Sleepers(s, q);
    if ts == [] then s
    else if policy == WakeFirst then Resume(SetSleepers(s, q, ts[1..]), ts[..1])
    else Resume(SetSleepers(s, q, []), ts)
  }

  /** The threads leave kthread_block. */
  function Resume(s: State, ts: seq<Tid>): State {
    s.(pcs := map t | t in s.pcs :: if t in ts && s.pcs[t].Sleep? then s.pcs[t].next else s.pcs[t])
  }

  /** A call begins on a handle with the right, so some end of its kind is open;
      the end may be closed while the call goes on. */
  predicate Enabled(s: State, c: Cmd) {
    match c
    case Step(t) =>
      (match Pc(s, t)
       case Idle => false
       case Sleep(_, _) => false
       case Block(q, _) => LockFree(s, q)
       case Wake(q, _) => LockFree(s, q)
       case Write(_, buf, done) => done <= |buf|
       case _ => true)
    case CloseReader(t) => Pc(s, t).Idle? && s.readers > 0
    case CloseWriter(t) => Pc(s, t).Idle? && s.writers > 0
    case BeginRead(t, n) => Pc(s, t).Idle? && n > 0 && s.readers > 0
    case BeginWrite(t, buf) => Pc(s, t).Idle? && buf != [] && s.writers > 0
    case TrySend(t, m) => Pc(s, t).Idle? && s.writers > 0
    case _ => Pc(s, c.t).Idle?
  }

  function Apply(s: State, cap: nat, policy: Policy, c: Cmd): State
    requires Enabled(s, c)
  {
    match c
    case BeginRead(t, n) => SetPc(s, t, Read(n))
    case BeginWrite(t, buf) => SetPc(s.(nextOp := s.nextOp + 1), t, Write(s.nextOp, buf, 0))
    case TrySend(t, m) =>
      var s1 := s.(nextOp := s.nextOp + 1);
      if s.readers == 0 then Finish(s1, t, s.nextOp, [m], -EPIPE)
      else if |s.contents| >= cap then Finish(s1, t, s.nextOp, [m], -EAGAIN)
      else SetPc(Append(s1, s.nextOp, [m]), t, Wake(Rq, Write(s.nextOp, [m], 1)))
    case OpenReader(t) => s.(readers := s.readers + 1)
    case OpenWriter(t) => s.(writers := s.writers + 1)
    case CloseReader(t) =>
      var s1 := s.(readers := s.readers - 1);
      if s1.readers == 0 then SetPc(s1, t, Wake(Wq, Idle)) else s1
    case CloseWriter(t) =>
      var s1 := s.(writers := s.writers - 1);
      if s1.writers == 0 then SetPc(s1, t, Wake(Rq, Idle)) else s1
    case Step(t) => Advance(s, cap, policy, t)
  }

  function Advance(s: State, cap: nat, policy: Policy, t: Tid): State
    requires Enabled(s, Step(t))
  {
    match Pc(s, t)
    case Read(n) => ReadPass(s, t, n)
    case Write(op, buf, done) => WritePass(s, cap, t, op, buf, done)
    case Block(q, next) => SetPc(s, t, if StillBlock(s, cap, q) then Commit(q, next) else next)
    case Commit(q, next) => SetPc(SetSleepers(s, q, Sleepers(s, q) + [t]), t, Sleep(q, next))
    case Wake(q, next) => SetPc(WakeUp(s, policy, q), t, next)
    case _ => s
  }

  // ----- runs ---------------------------------------------------------------------------

  /** A channel as sys_pipe leaves it: one open end of each kind. */
  function Fresh(): State {
    State([], 1, 1, [], [], map[], [], [], 0, map[], [])
  }

  predicate Runs(s: State, cap: nat, policy: Policy, cmds: seq<Cmd>)
    decreases |cmds|
  {
    cmds == [] || (Enabled(s, cmds[0]) && Runs(Apply(s, cap, policy, cmds[0]), cap, policy, cmds[1..]))
  }

  function After(s: State, cap: nat, policy: Policy, cmds: seq<Cmd>): State
    requires Runs(s, cap, policy, cmds)
    decreases |cmds|
  {
    if cmds == [] then s else After(Apply(s, cap, policy, cmds[0]), cap, policy, cmds[1..])
  }
}
