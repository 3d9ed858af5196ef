/** Secondary-CPU bring-up: smp_bringup_secondary on the boot CPU, and
    kernel_secondary_main on any number of secondaries, as one machine whose
    steps interleave freely.  A step that is not possible changes nothing. */
module Bringup {

  const MAX_CPUS: nat := 64

  type Cpu = nat

  /** Where a secondary is.  Inited: its per-CPU state is set up and it spins on
      its idle task.  Seen: the spin is over. */
  datatype Stage = Off | Started | Inited | Seen | Acked | IrqOn

  /** cpu_data[].idle_task: published before its context is filled in. */
  datatype Idle = NoIdle | Blank | Full

  /** Where the boot CPU is inside smp_bringup_secondary. */
  datatype Boot = Free | Reset(cpu: Cpu) | Publishing(cpu: Cpu) | Waking(cpu: Cpu) | Waiting(cpu: Cpu)

  datatype Return = Return(cpu: Cpu, ret: int)

  /** `acks` are the acknowledgements since the cell was reset, `results` the
      results of all finished calls: history the code does not keep. */
  datatype State = State(
    cell: nat, boot: Boot, stages: map<Cpu, Stage>, idles: map<Cpu, Idle>,
    acks: seq<Cpu>, results: seq<Return>)

  /** The boot CPU's steps carry what it cannot choose: whether the idle task
      could be made, whether the wake worked, whether the time is up. */
  datatype Cmd =
    | Call(cpu: Cpu)
    | Publish(made: bool)
    | Fill
    | Wake(woken: bool)
    | Poll(expired: bool)
    | Secondary(cpu: Cpu)

  function StageOf(s: State, c: Cpu): Stage {
    if c in s.stages then s.stages[c] else Off
  }

  function IdleOf(s: State, c: Cpu): Idle {
    if c in s.idles then s.idles[c] else NoIdle
  }

  function Fresh(): State {
    State(0, Free, map[], map[], [], [])
  }

  /** smp_ack_boot. */
  function Ack(s: State, c: Cpu): State {
    s.(cell := c, acks := s.acks + [c], stages := s.stages[c := Acked])
  }

  function Finish(s: State, c: Cpu, ret: int): State {
    s.(boot := Free, results := s.results + [Return(c, ret)])
  }

  /** One step of kernel_secondary_main. */
  function Advance(s: State, c: Cpu): State {
    match StageOf(s, c)
    case Off => s
    case Started => s.(stages := s.stages[c := Inited])
    case Inited => if IdleOf(s, c) == NoIdle then s else s.(stages := s.stages[c := Seen])
    case Seen => Ack(s, c)
    case Acked => s.(stages := s.stages[c := IrqOn])
    case IrqOn => s
  }

  function Apply(s: State, cmd: Cmd): State {
    match cmd
    case Call(c) => if s.boot.Free? then s.(cell := 0, acks := [], boot := Reset(c)) else s
    case Publish(made) =>
      if !s.boot.Reset? then s
      else if s.boot.cpu < MAX_CPUS && made then
        s.(idles := s.idles[s.boot.cpu := Blank], boot := Publishing(s.boot.cpu))
      else s.(boot := Waking(s.boot.cpu))
    case Fill =>
      if !s.boot.Publishing? then s
      else s.(idles := s.idles[s.boot.cpu := Full], boot := Waking(s.boot.cpu))
    case Wake(woken) =>
      if !s.boot.Waking? then s
      else if !woken then Finish(s, s.boot.cpu, -1)
      else
        var c := s.boot.cpu;
        s.(boot := Waiting(c), stages := if StageOf(s, c) == Off then s.stages[c := Started] else s.stages)
    case Poll(expired) =>
      if !s.boot.Waiting? then s
      else if s.cell == s.boot.cpu then Finish(s, s.boot.cpu, 0)
      else if expired then Finish(s, s.boot.cpu, -2)
      else s
    case Secondary(c) => Advance(s, c)
  }

  function After(s: State, cmds: seq<Cmd>): State
    decreases |cmds|
  {
    if cmds == [] then s else After(Apply(s, cmds[0]), cmds[1..])
  }

  // ----- what every step keeps ---------------------------------------------------------------

  predicate Past(g: Stage) {
    g == Acked || g == IrqOn
  }

  /** The stages behind the spin need an idle task, the cell is the last
      acknowledgement, and only a CPU that is past its initialisation has acknowledged. */
  ghost predicate Inv(s: State) {
    && (forall c :: StageOf(s, c) in {Seen, Acked, IrqOn} ==> IdleOf(s, c) != NoIdle)
    && s.cell == (if s.acks == [] then 0 else s.acks[|s.acks| - 1])
    && (forall c :: c in s.acks ==> Past(StageOf(s, c)))
    && (forall i, j :: 0 <= i < j < |s.acks| ==> s.acks[i] != s.acks[j])
    && (forall r :: r in s.results && r.ret == 0 && r.cpu != 0 ==> Past(StageOf(s, r.cpu)))
  }

  lemma StepInv(s: State, cmd: Cmd)
    requires Inv(s)
    ensures Inv(Apply(s, cmd))
  {
    var t := Apply(s, cmd);
    if cmd.Secondary? {
      AdvanceInv(s, cmd.cpu);
    } else if t.boot.Free? && !s.boot.Free? {
      FinishInv(s, t.results[|s.results|].ret);
    } else {
      BootFrame(s, cmd);
      hide Apply, StageOf, IdleOf;
    }
  }

  /** A step of the boot CPU leaves running CPUs and published tasks. */
  lemma BootFrame(s: State, cmd: Cmd)
    requires !cmd.Secondary?
    ensures var t := Apply(s, cmd);
            && (forall c :: StageOf(t, c) == StageOf(s, c) || (StageOf(s, c) == Off && StageOf(t, c) == Started))
            && (forall c :: IdleOf(s, c) != NoIdle ==> IdleOf(t, c) != NoIdle)
            && ((t.boot == Free && s.boot != Free) || t.results == s.results)
            && ((t.acks == s.acks && t.cell == s.cell) || (t.acks == [] && t.cell == 0))
  {
  }

  lemma FinishInv(s: State, ret: int)
    requires Inv(s) && !s.boot.Free? && (ret == 0 ==> s.cell == s.boot.cpu)
    ensures Inv(Finish(s, s.boot.cpu, ret))
  {
    var t := Finish(s, s.boot.cpu, ret);
    assert forall c :: StageOf(t, c) == StageOf(s, c) && IdleOf(t, c) == IdleOf(s, c);
    hide StageOf, IdleOf;
  }

  lemma AdvanceInv(s: State, c: Cpu)
    requires Inv(s)
    ensures Inv(Advance(s, c))
  {
    var t := Advance(s, c);
    assert forall x :: x != c ==> StageOf(t, x) == StageOf(s, x);
  }

  lemma {:induction false} RunInv(s: State, cmds: seq<Cmd>)
    requires Inv(s)
    ensures Inv(After(s, cmds))
    decreases |cmds|
  {
    hide Inv, Apply;
    if cmds != [] {
      StepInv(s, cmds[0]);
      RunInv(Apply(s, cmds[0]), cmds[1..]);
    }
  }

  /** Over all interleavings: interrupts are on only where an idle task is
      published, and 0 was returned only for a CPU that has acknowledged, unless it is CPU 0. */
  lemma BringupIsSafe(cmds: seq<Cmd>)
    ensures var s := After(Fresh(), cmds);
            && (forall c :: StageOf(s, c) == IrqOn ==> IdleOf(s, c) != NoIdle)
            && (forall r :: r in s.results && r.ret == 0 && r.cpu != 0 ==> Past(StageOf(s, r.cpu)))
  {
    hide After;
    RunInv(Fresh(), cmds);
  }

  // ----- what 0 and -2 mean --------------------------------------------------------------------

  /** When a poll returns 0: the last acknowledgement since the reset is this
      CPU's, or this is CPU 0 and there was none. */
  lemma ReturnsZeroIff(cmds: seq<Cmd>, expired: bool)
    requires After(Fresh(), cmds).boot.Waiting?
    ensures var s := After(Fresh(), cmds);
            var c := s.boot.cpu;
            Apply(s, Poll(expired)) == Finish(s, c, 0) <==>
              if s.acks == [] then c == 0 else s.acks[|s.acks| - 1] == c
  {
    hide After;
    RunInv(Fresh(), cmds);
    var s := After(Fresh(), cmds);
    FinishDiffers(s, s.boot.cpu);
  }

  lemma FinishDiffers(s: State, c: Cpu)
    requires s.boot.Waiting?
    ensures s != Finish(s, c, 0) && Finish(s, c, -2) != Finish(s, c, 0)
  {
    assert Finish(s, c, 0).boot == Free;
    assert Finish(s, c, 0).results[|s.results|].ret == 0;
    assert Finish(s, c, -2).results[|s.results|].ret == -2;
  }

  /** Everything a step of the boot CPU can do: publish an idle task if there is one
      and the number is in range, start a CPU that is off, and return -1 for a
      failed wake, 0 for a matching cell and -2 for an expired wait. */
  lemma BootExactly(s: State, made: bool, woken: bool, expired: bool)
    ensures s.boot.Reset? ==>
              var c, t := s.boot.cpu, Apply(s, Publish(made));
              && (IdleOf(t, c) == if made && c < 64 then Blank else IdleOf(s, c))
              && (t.boot == if made && c < 64 then Publishing(c) else Waking(c))
              && (forall x :: x != c ==> IdleOf(t, x) == IdleOf(s, x)) && t.stages == s.stages && t.cell == s.cell && t.results == s.results
    ensures s.boot.Waking? ==>
              var c, t := s.boot.cpu, Apply(s, Wake(woken));
              && (t.boot == if woken then Waiting(c) else Free)
              && (t.results == if woken then s.results else s.results + [Return(c, -1)])
              && (StageOf(t, c) == if woken && StageOf(s, c) == Off then Started else StageOf(s, c))
              && (forall x :: x != c ==> StageOf(t, x) == StageOf(s, x)) && t.idles == s.idles && t.cell == s.cell
    ensures s.boot.Waiting? ==>
              var c, t := s.boot.cpu, Apply(s, Poll(expired));
              && t.stages == s.stages && t.idles == s.idles && t.cell == s.cell
              && (s.cell == c ==> t.boot == Free && t.results == s.results + [Return(c, 0)])
              && (s.cell != c && expired ==> t.boot == Free && t.results == s.results + [Return(c, -2)])
              && (s.cell != c && !expired ==> t == s)
  {
  }

  /** A secondary goes through its stages in order, waits for its idle task, and
      writes the cell exactly once, with its own number, before its interrupts. */
  lemma SecondaryExactly(s: State, c: Cpu)
    ensures var t := Apply(s, Secondary(c));
            && (forall x :: x != c ==> StageOf(t, x) == StageOf(s, x))
            && t.idles == s.idles && t.boot == s.boot && t.results == s.results
            && (StageOf(s, c) == Off ==> t == s)
            && (StageOf(s, c) == Started ==> StageOf(t, c) == Inited)
            && (StageOf(s, c) == Inited ==> StageOf(t, c) == if IdleOf(s, c) == NoIdle then Inited else Seen)
            && (StageOf(s, c) == Seen ==> StageOf(t, c) == Acked)
            && (StageOf(s, c) == Acked ==> StageOf(t, c) == IrqOn)
            && (StageOf(s, c) == IrqOn ==> t == s)
            && (t.cell == if StageOf(s, c) == Seen then c else s.cell)
  {
  }

  // ----- late acknowledgements --------------------------------------------------------------------

  /** x will never acknowledge from here, or has done so. */
  predicate Settled(s: State, x: Cpu) {
    || StageOf(s, x) == Off || Past(StageOf(s, x))
    || (StageOf(s, x) != Seen && IdleOf(s, x) == NoIdle)
  }

  /** No CPU of an earlier call is still on its way. */
  ghost predicate Quiet(s: State, c: Cpu) {
    forall x :: x != c ==> Settled(s, x)
  }

  /** While the call that began in s has not returned. */
  predicate During(s: State, t: State) {
    |t.results| == |s.results|
  }

  /** The boot CPU sees the acknowledgement of c exactly when c has made it. */
  ghost predicate Visible(s: State, c: Cpu) {
    forall more :: During(s, After(Apply(s, Call(c)), more)) ==> Seeing(After(Apply(s, Call(c)), more), c)
  }

  predicate Seeing(t: State, c: Cpu) {
    t.cell == c <==> Past(StageOf(t, c))
  }

  ghost predicate Calling(t: State, c: Cpu) {
    && !t.boot.Free? && t.boot.cpu == c && Quiet(t, c)
    && t.acks == (if Past(StageOf(t, c)) then [c] else [])
  }

  lemma ResultsGrow(s: State, cmd: Cmd)
    ensures |Apply(s, cmd).results| >= |s.results|
  {
  }

  lemma {:induction false} ResultsGrowRun(s: State, cmds: seq<Cmd>)
    ensures |After(s, cmds).results| >= |s.results|
    decreases |cmds|
  {
    hide Apply;
    if cmds != [] {
      ResultsGrow(s, cmds[0]);
      ResultsGrowRun(Apply(s, cmds[0]), cmds[1..]);
    }
  }

  lemma CallingStep(t: State, c: Cpu, cmd: Cmd)
    requires Calling(t, c) && |Apply(t, cmd).results| == |t.results|
    ensures Calling(Apply(t, cmd), c)
  {
    var u := Apply(t, cmd);
    forall x | x != c ensures Settled(u, x) {
      assert Settled(t, x);
    }
    if cmd.Secondary? && cmd.cpu != c {
      assert Settled(t, cmd.cpu);
    }
  }

  lemma {:induction false} CallingRun(t: State, c: Cpu, cmds: seq<Cmd>)
    requires Calling(t, c) && During(t, After(t, cmds))
    ensures Calling(After(t, cmds), c)
    decreases |cmds|
  {
    hide Apply, Calling;
    if cmds != [] {
      var u := Apply(t, cmds[0]);
      ResultsGrow(t, cmds[0]);
      ResultsGrowRun(u, cmds[1..]);
      CallingStep(t, c, cmds[0]);
      CallingRun(u, c, cmds[1..]);
    }
  }

  lemma QuietIsVisible(s: State, c: Cpu)
    requires Inv(s) && s.boot.Free? && c != 0 && StageOf(s, c) == Off && Quiet(s, c)
    ensures Visible(s, c)
  {
    var s1 := Apply(s, Call(c));
    forall x | x != c ensures Settled(s1, x) {
      assert Settled(s, x);
    }
    assert Calling(s1, c) && |s1.results| == |s.results|;
    StepInv(s, Call(c));
    forall more | During(s, After(s1, more)) ensures Seeing(After(s1, more), c) {
      CallingRun(s1, c, more);
      RunInv(s1, more);
    }
  }

  // ----- the other direction: a CPU still on its way can hide the acknowledgement ------------------

  lemma {:induction false} AfterSnoc(s: State, cmds: seq<Cmd>, cmd: Cmd)
    ensures After(s, cmds + [cmd]) == Apply(After(s, cmds), cmd)
    decreases |cmds|
  {
    hide Apply;
    if cmds == [] {
      assert cmds + [cmd] == [cmd] && [cmd][1..] == [];
      assert After(s, [cmd]) == After(Apply(s, cmd), []);
    } else {
      AfterSnoc(Apply(s, cmds[0]), cmds[1..], cmd);
      assert (cmds + [cmd])[1..] == cmds[1..] + [cmd];
    }
  }

  /** One more command of a run from s. */
  lemma Go(s: State, t: State, cmds: seq<Cmd>, cmd: Cmd) returns (u: State, more: seq<Cmd>)
    requires After(s, cmds) == t
    ensures u == Apply(t, cmd) && After(s, more) == u
  {
    AfterSnoc(s, cmds, cmd);
    u, more := Apply(t, cmd), cmds + [cmd];
  }

  /** A CPU with an idle task gets to its acknowledgement by itself. */
  lemma {:induction false} GoAck(s: State, t: State, cmds: seq<Cmd>, x: Cpu) returns (u: State, more: seq<Cmd>)
    requires After(s, cmds) == t && StageOf(t, x) in {Started, Inited, Seen} && IdleOf(t, x) != NoIdle
    ensures After(s, more) == u && u.cell == x && u.results == t.results && u.idles == t.idles
    ensures u.stages == t.stages[x := Acked]
    decreases if StageOf(t, x) == Started then 2 else if StageOf(t, x) == Inited then 1 else 0
  {
    hide After;
    var v, c1 := Go(s, t, cmds, Secondary(x));
    if StageOf(t, x) == Seen {
      u, more := v, c1;
    } else {
      u, more := GoAck(s, v, c1, x);
    }
  }

  lemma GoWake(s: State, c: Cpu) returns (u: State, more: seq<Cmd>)
    requires s.boot.Free? && c < MAX_CPUS && StageOf(s, c) == Off
    ensures After(Apply(s, Call(c)), more) == u && u.results == s.results
    ensures u.stages == s.stages[c := Started] && u.idles == s.idles[c := Full]
    ensures u.boot == Waiting(c) && u.cell == 0
  {
    var s1 := Apply(s, Call(c));
    assert After(s1, []) == s1;
    hide After;
    var s2, c2 := Go(s1, s1, [], Publish(true));
    var s3, c3 := Go(s1, s2, c2, Fill);
    u, more := Go(s1, s3, c3, Wake(true));
  }

  lemma LateAckHides(s: State, c: Cpu, x: Cpu)
    requires s.boot.Free? && c < MAX_CPUS && StageOf(s, c) == Off && x != c && !Settled(s, x)
    requires Inv(s)
    ensures !Visible(s, c)
  {
    var s1 := Apply(s, Call(c));
    var a, c1 := GoWake(s, c);
    var b, c2 := GoAck(s1, a, c1, c);
    var u, c3 := GoAck(s1, b, c2, x);
    hide After;
    assert During(s, After(s1, c3)) && !Seeing(After(s1, c3), c);
  }

  /** The first bring-up of a CPU sees its acknowledgement exactly when, at the
      time of the call, no other CPU is still on its way. */
  lemma VisibleIffQuiet(cmds: seq<Cmd>, c: Cpu)
    requires var s := After(Fresh(), cmds); s.boot.Free? && 0 < c < MAX_CPUS && StageOf(s, c) == Off
    ensures var s := After(Fresh(), cmds); Visible(s, c) <==> Quiet(s, c)
  {
    hide After;
    RunInv(Fresh(), cmds);
    var s := After(Fresh(), cmds);
    if Quiet(s, c) {
      QuietIsVisible(s, c);
    } else {
      var x :| x != c && !Settled(s, x);
      LateAckHides(s, c, x);
    }
  }

  /** CPU 0 matches the reset cell: its bring-up returns 0 while it is still starting. */
  lemma ZeroNeedsNoAck() returns (cmds: seq<Cmd>)
    ensures var s := After(Fresh(), cmds); s.results == [Return(0, 0)] && StageOf(s, 0) == Started
  {
    var a, c1 := GoWake(Fresh(), 0);
    var s1 := Apply(Fresh(), Call(0));
    cmds := [Call(0)] + (c1 + [Poll(false)]);
    AfterSnoc(s1, c1, Poll(false));
    assert cmds[1..] == c1 + [Poll(false)];
  }

  // ----- the idle task's context ---------------------------------------------------------------------

  /** No running CPU has an idle task whose context is not filled in. */
  ghost predicate Contexts(s: State) {
    forall c :: StageOf(s, c) != Off ==> IdleOf(s, c) != Blank
  }

  /** A blank context is one the boot CPU is about to fill. */
  ghost predicate BlankWhere(s: State) {
    forall c :: IdleOf(s, c) == Blank ==> s.boot == Publishing(c)
  }

  lemma BlankStep(s: State, cmd: Cmd)
    requires BlankWhere(s)
    ensures BlankWhere(Apply(s, cmd))
  {
    var t := Apply(s, cmd);
    forall c | IdleOf(t, c) == Blank ensures t.boot == Publishing(c) {
      assert IdleOf(s, c) == Blank ==> s.boot == Publishing(c);
    }
  }

  lemma {:induction false} BlankRun(s: State, cmds: seq<Cmd>)
    requires BlankWhere(s)
    ensures BlankWhere(After(s, cmds))
    decreases |cmds|
  {
    hide Apply, BlankWhere;
    if cmds != [] {
      BlankStep(s, cmds[0]);
      BlankRun(Apply(s, cmds[0]), cmds[1..]);
    }
  }

  /** The called CPU stays off until it is woken, with its context filled in. */
  ghost predicate OffUntilWoken(t: State, c: Cpu) {
    !t.boot.Free? && t.boot.cpu == c && (StageOf(t, c) != Off ==> t.boot == Waiting(c))
  }

  lemma OffStep(t: State, c: Cpu, cmd: Cmd)
    requires OffUntilWoken(t, c) && |Apply(t, cmd).results| == |t.results|
    ensures OffUntilWoken(Apply(t, cmd), c)
  {
  }

  lemma {:induction false} OffRun(t: State, c: Cpu, cmds: seq<Cmd>)
    requires OffUntilWoken(t, c) && During(t, After(t, cmds))
    ensures OffUntilWoken(After(t, cmds), c)
    decreases |cmds|
  {
    hide Apply, OffUntilWoken;
    if cmds != [] {
      var u := Apply(t, cmds[0]);
      ResultsGrow(t, cmds[0]);
      ResultsGrowRun(u, cmds[1..]);
      OffStep(t, c, cmds[0]);
      OffRun(u, c, cmds[1..]);
    }
  }

  /** All that a call of c can lead to keeps the contexts filled. */
  ghost predicate KeepsContexts(s: State, c: Cpu) {
    forall more :: During(s, After(Apply(s, Call(c)), more)) ==> Contexts(After(Apply(s, Call(c)), more))
  }

  /** A running CPU never sees a blank context exactly when the call is made for
      one that is off: a second bring-up of a running CPU republishes its idle
      task before the context is filled in. */
  lemma KeepsContextsIff(cmds: seq<Cmd>, c: Cpu)
    requires var s := After(Fresh(), cmds); s.boot.Free? && c < MAX_CPUS
    ensures var s := After(Fresh(), cmds); KeepsContexts(s, c) <==> StageOf(s, c) == Off
  {
    BlankRun(Fresh(), cmds);
    var s := After(Fresh(), cmds);
    var s1 := Apply(s, Call(c));
    if StageOf(s, c) == Off {
      BlankStep(s, Call(c));
      hide After;
      forall more | During(s, After(s1, more)) ensures Contexts(After(s1, more)) {
        OffRun(s1, c, more);
        BlankRun(s1, more);
      }
    } else {
      assert After(s1, []) == s1;
      hide After;
      var s2, c2 := Go(s1, s1, [], Publish(true));
      assert IdleOf(s2, c) == Blank && StageOf(s2, c) != Off;
      assert During(s, After(s1, c2)) && !Contexts(After(s1, c2));
    }
  }

  // ----- whole runs of a caller that brings each CPU up once --------------------------------------------

  /** No CPU is brought up twice, nor one of those in `called`. */
  ghost predicate CallsOnce(cmds: seq<Cmd>, called: set<Cpu>) {
    && (forall i :: 0 <= i < |cmds| && cmds[i].Call? ==> cmds[i].cpu !in called)
    && (forall i, j :: 0 <= i < j < |cmds| && cmds[i].Call? ==> cmds[j] != cmds[i])
  }

  /** Only called CPUs run, and the one being called runs only once woken. */
  ghost predicate OnlyCalled(s: State, called: set<Cpu>) {
    && (forall c :: StageOf(s, c) != Off ==> c in called)
    && (!s.boot.Free? ==> s.boot.cpu in called && OffUntilWoken(s, s.boot.cpu))
  }

  function CalledBy(called: set<Cpu>, cmd: Cmd): set<Cpu> {
    if cmd.Call? then called + {cmd.cpu} else called
  }

  lemma OnlyCalledStep(s: State, called: set<Cpu>, cmd: Cmd)
    requires OnlyCalled(s, called) && (cmd.Call? ==> cmd.cpu !in called)
    ensures OnlyCalled(Apply(s, cmd), CalledBy(called, cmd))
  {
    var t := Apply(s, cmd);
    assert forall c :: StageOf(t, c) != Off ==> StageOf(s, c) != Off || (s.boot.Waking? && c == s.boot.cpu);
  }

  lemma CallsOnceTail(cmds: seq<Cmd>, called: set<Cpu>)
    requires cmds != [] && CallsOnce(cmds, called)
    ensures CallsOnce(cmds[1..], CalledBy(called, cmds[0]))
  {
    forall i | 0 <= i < |cmds[1..]| && cmds[1..][i].Call? ensures cmds[1..][i].cpu !in CalledBy(called, cmds[0]) {
      assert cmds[i + 1] == cmds[1..][i];
    }
  }

  lemma {:induction false} OnlyCalledRun(s: State, called: set<Cpu>, cmds: seq<Cmd>) returns (all: set<Cpu>)
    requires OnlyCalled(s, called) && CallsOnce(cmds, called)
    ensures OnlyCalled(After(s, cmds), all)
    decreases |cmds|
  {
    all := called;
    if cmds != [] {
      CallsOnceTail(cmds, called);
      OnlyCalledStep(s, called, cmds[0]);
      hide Apply, OnlyCalled, CallsOnce;
      all := OnlyCalledRun(Apply(s, cmds[0]), CalledBy(called, cmds[0]), cmds[1..]);
    }
  }

  /** The SMP-IDLE-RACE guarantee for such a caller: wherever interrupts are on,
      the idle task is published and its context filled in. */
  lemma InterruptsNeedContext(cmds: seq<Cmd>)
    requires CallsOnce(cmds, {})
    ensures var s := After(Fresh(), cmds); forall c :: StageOf(s, c) == IrqOn ==> IdleOf(s, c) == Full
  {
    hide After, Apply;
    var all := OnlyCalledRun(Fresh(), {}, cmds);
    BlankRun(Fresh(), cmds);
    BringupIsSafe(cmds);
  }

  // ----- the bounded wait ----------------------------------------------------------------------------------

  const U64: nat := 0x1_0000_0000_0000_0000
  const I63: nat := 0x8000_0000_0000_0000

  /** The sign of the 64-bit difference deadline - now. */
  predicate Expired(deadline: nat, now: nat) {
    var d := (deadline - now) % U64;
    d == 0 || d >= I63
  }

  /** The counter may wrap: the wait is over exactly ten seconds of ticks after it began. */
  lemma ExpiredIff(start: nat, freq: nat, elapsed: nat)
    requires freq * 10 < I63 && elapsed < freq * 10 + I63
    ensures Expired((start + freq * 10) % U64, (start + elapsed) % U64) <==> elapsed >= freq * 10
  {
    var a, b := start + freq * 10, start + elapsed;
    var qa, qb := a / U64, b / U64;
    var d := a % U64 - b % U64;
    assert d == freq * 10 - elapsed - U64 * (qa - qb);
    ModShift(freq * 10 - elapsed, d, qa - qb);
  }

  lemma ModShift(x: int, y: int, k: int)
    requires y == x - U64 * k
    ensures y % U64 == x % U64
  {
  }

  /** The wait loop of smp_bringup_secondary.  The i-th load of the cell gives
      cells[i], and ticks[i] have then passed since the wait began. */
  method AwaitAck(cpu: Cpu, start: nat, freq: nat, cells: seq<nat>, ticks: seq<nat>) returns (ret: int, polls: nat)
    requires freq * 10 < I63 && |cells| == |ticks|
    requires forall i :: 0 <= i < |ticks| ==> ticks[i] < freq * 10 + I63
    requires exists i :: 0 <= i < |ticks| && ticks[i] >= freq * 10
    ensures polls < |cells| && (ret == 0 || ret == -2)
    ensures forall i :: 0 <= i < polls ==> cells[i] != cpu && ticks[i] < freq * 10
    ensures if ret == 0 then cells[polls] == cpu else cells[polls] != cpu && ticks[polls] >= freq * 10
  {
    var deadline := (start + freq * 10) % U64;
    polls := 0;
    while cells[polls] != cpu
      invariant polls < |cells|
      invariant forall i :: 0 <= i < polls ==> cells[i] != cpu && ticks[i] < freq * 10
      decreases |cells| - polls
    {
      ExpiredIff(start, freq, ticks[polls]);
      if Expired(deadline, (start + ticks[polls]) % U64) {
        return -2, polls;
      }
      polls := polls + 1;
    }
    return 0, polls;
  }
}
