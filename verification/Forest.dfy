/** What the refinement to three call stacks says about the process table itself. */
module Forest {
  import opened Words
  import opened Paging
  import opened Processes
  import opened CallStacks

  predicate Running(s: State, p: int)
    requires Shape(s)
  {
    0 <= p < MAX_PID && s.status[p]
  }

  /** n parent pointers lead from p to a running terminal root, all through running processes of
      terminal t whose child is the process just left. */
  predicate Climbs(s: State, p: int, t: int, n: nat)
    requires Shape(s)
    decreases n
  {
    && Running(s, p) && s.pcbs[p].terminal == t
    && s.pcbs[p].isTerminal == (n == 0)
    && (n > 0 ==> && Running(s, s.pcbs[p].parent) && s.pcbs[p].parent != p
                  && s.pcbs[s.pcbs[p].parent].child == p
                  && Climbs(s, s.pcbs[p].parent, t, n - 1))
  }

  /** A running process can climb to its root, and its child, if any, points back. */
  ghost predicate Kin(s: State, p: int)
    requires Shape(s) && Running(s, p)
  {
    var c := s.pcbs[p].child;
    && 1 <= p && s.pcbs[p].pid == p
    && (exists n: nat :: n < MAX_PID && Climbs(s, p, s.pcbs[p].terminal, n))
    && (c != NONE ==> Running(s, c) && s.pcbs[c].parent == p && !s.pcbs[c].isTerminal)
  }

  ghost predicate WellFormed(s: State) {
    && Shape(s)
    && s.total == Count(s.status)
    && (forall p :: Running(s, p) ==> Kin(s, p))
    && (forall p :: 0 <= p < MAX_PID && !s.status[p] ==> s.pcbs[p].child == NONE)
    // one chain per terminal: a terminal never has two leaves
    && (forall p, q :: 0 <= p < q < MAX_PID && Ready(s, p) && Ready(s, q) ==>
          s.pcbs[p].terminal != s.pcbs[q].terminal)
    // the current process is a leaf, or a halted root while others run
    && (s.current != NONE ==>
          && s.total >= 1
          && (Ready(s, s.current) || !s.status[s.current]))
  }

  lemma {:induction false} CountAtMost(status: seq<bool>)
    ensures Count(status) <= |status|
  {
    if status != [] { CountAtMost(status[..|status| - 1]); }
  }

  lemma {:induction false} StackClimbs(s: State, m: Machine, t: int, i: nat)
    requires Refines(s, m) && 0 <= t < TERMINALS && i < |m.stacks[t]|
    ensures Climbs(s, m.stacks[t][i], t, i)
  {
    var st := m.stacks[t];
    assert Linked(s, st, t, i);
    if i > 0 {
      StackClimbs(s, m, t, i - 1);
      assert Linked(s, st, t, i - 1);
      assert Distinct(st);
    }
  }

  lemma RunningHasKin(s: State, m: Machine, p: int)
    requires Refines(s, m) && Running(s, p)
    ensures Kin(s, p)
  {
    var t, i := Position(s, m, p);
    CountAtMost(s.status);
    StackClimbs(s, m, t, i);
    if i + 1 < |m.stacks[t]| { assert Linked(s, m.stacks[t], t, i + 1); }
  }

  lemma RefinedIsWellFormed(s: State, m: Machine)
    requires Refines(s, m)
    ensures WellFormed(s)
  {
    AllKin(s, m);
    OneLeaf(s, m);
    if s.current != NONE { CurrentIsLeaf(s, m); }
  }

  lemma AllKin(s: State, m: Machine)
    requires Refines(s, m)
    ensures forall p :: Running(s, p) ==> Kin(s, p)
    ensures forall p :: 0 <= p < MAX_PID && !s.status[p] ==> s.pcbs[p].child == NONE
  {
    forall p | Running(s, p) ensures Kin(s, p) { RunningHasKin(s, m, p); }
    forall p | 0 <= p < MAX_PID && !s.status[p] ensures s.pcbs[p].child == NONE { assert Placed(s, m, p); }
  }

  lemma CurrentIsLeaf(s: State, m: Machine)
    requires Refines(s, m) && s.current != NONE
    ensures s.total >= 1 && (Ready(s, s.current) || !s.status[s.current])
  {
    if m.turn.Runs? { ReadyIsTop(s, m, s.current); }
  }

  lemma OneLeaf(s: State, m: Machine)
    requires Refines(s, m)
    ensures forall p, q :: 0 <= p < q < MAX_PID && Ready(s, p) && Ready(s, q) ==>
              s.pcbs[p].terminal != s.pcbs[q].terminal
  {
    forall p, q | 0 <= p < q < MAX_PID && Ready(s, p) && Ready(s, q)
      ensures s.pcbs[p].terminal != s.pcbs[q].terminal
    {
      LeafIsTop(s, m, p);
      LeafIsTop(s, m, q);
    }
  }

  lemma Position(s: State, m: Machine, p: int) returns (t: int, i: nat)
    requires Refines(s, m) && Running(s, p)
    ensures 0 <= t < TERMINALS && i < |m.stacks[t]| && m.stacks[t][i] == p && Linked(s, m.stacks[t], t, i)
  {
    assert Placed(s, m, p);
    t := s.pcbs[p].terminal;
    i :| 0 <= i < |m.stacks[t]| && m.stacks[t][i] == p;
    assert Linked(s, m.stacks[t], t, i);
  }

  lemma LeafIsTop(s: State, m: Machine, p: int)
    requires Refines(s, m) && 0 <= p < MAX_PID && Ready(s, p)
    ensures 0 <= s.pcbs[p].terminal < TERMINALS && m.stacks[s.pcbs[p].terminal] != []
    ensures p == Last(m.stacks[s.pcbs[p].terminal])
  {
    ReadyIsTop(s, m, p);
    var t :| 0 <= t < |m.stacks| && m.stacks[t] != [] && p == Last(m.stacks[t]);
    WhereOnly(s, m, t, |m.stacks[t]| - 1);
  }

  /** Main result: every reachable state has a well-formed forest. */
  lemma ReachableIsWellFormed(s: State, steps: seq<Step>, s': State)
    requires Initial(s) && IsRun(s, steps, s') && forall i :: 0 <= i < |steps| ==> Loadable(steps[i])
    ensures WellFormed(s')
  {
    var m := RunRefines(s, steps, s');
    RefinedIsWellFormed(s', m);
  }

  /** The restart branch of halt is only ever taken by a terminal root. */
  lemma RestartIsRoot(s: State, m: Machine)
    requires Refines(s, m) && Enabled(s, Halt) && s.total == 1
    ensures s.pcbs[s.current].isTerminal
  {
    assert Linked(s, m.stacks[m.turn.t], m.turn.t, |m.stacks[m.turn.t]| - 1);
  }

  /** Whenever something runs, some running process has no child. */
  lemma SomeLeaf(s: State, m: Machine) returns (p: int)
    requires Refines(s, m) && s.total > 0
    ensures 0 <= p < MAX_PID && Ready(s, p)
  {
    var t := if m.stacks[0] != [] then 0 else if m.stacks[1] != [] then 1 else 2;
    p := Last(m.stacks[t]);
    assert Linked(s, m.stacks[t], t, |m.stacks[t]| - 1);
    ReadyIsTop(s, m, p);
  }

  /** The tick after a terminal-root halt leaves the dead process for a running leaf. */
  lemma TickLeavesTheDead(s: State, m: Machine)
    requires Refines(s, m) && s.current != NONE && !s.status[s.current]
    ensures TimerTick(s).current != s.current
    ensures Ready(s, TimerTick(s).current)
  {
    if m.turn.Runs? { ReadyIsTop(s, m, s.current); }
    var p := SomeLeaf(s, m);
    ScanFindsNearest(s, NextPid(s.current));
  }

  /** Once a process has run, no later state of the run has running count 0. */
  lemma {:induction false} NeverEmptyAgain(s: State, m: Machine, steps: seq<Step>, s': State)
    requires Refines(s, m) && s.current != NONE
    requires IsRun(s, steps, s') && forall i :: 0 <= i < |steps| ==> Loadable(steps[i])
    ensures s'.current != NONE && s'.total >= 1
    decreases |steps|
  {
    if steps == [] {
      if m.turn.Runs? { ReadyIsTop(s, m, s.current); }
      RefinedIsWellFormed(s, m);
    } else {
      var m1 := StepRefines(s, m, steps[0]);
      NeverEmptyAgain(Apply(s, steps[0]), m1, steps[1..], s');
    }
  }

  /** execute is all or nothing unless loading goes wrong after the pid was taken: then, and only then, it reports
      failure, or stops the machine, with a pid leaked. */
  lemma ExecuteLeaksIff(s: State, probe: Probe, t: int, isTerminal: bool)
    requires Shape(s) && (isTerminal || s.current != NONE) && 0 <= t < TERMINALS
    ensures var s', code := ExecuteOn(s, probe, t, isTerminal), ExecuteCode(s, probe);
            var free := EmptyPid(s.status);
            && (code != 0 && s' != s <==> free != NONE && !probe.Clean())
            && (code == 0 <==> free != NONE && probe.Loads?)
            && (code != 0 && s' != s ==> s'.status[free] && s'.total == s.total + 1 && s'.current == s.current)
            && (code == 0 && (isTerminal || s.status[s.current]) ==> Started(s, s', t, free, isTerminal))
  {
    var free := EmptyPid(s.status);
    if free != NONE {
      assert s.status[free := true][free] != s.status[free];
      if isTerminal || s.status[s.current] { ExecuteStarts(s, t, isTerminal); }
    }
  }

  /** The machine registers and page entries agree with the current process's PCB. */
  predicate Agrees(s: State)
    requires Shape(s)
  {
    && s.view.videoFrame == s.view.userVideoFrame == TerminalFrame(s.view.active, s.view.display)
    && (s.current != NONE ==>
          && s.view.userFrame == TaskFrame(s.current)
          && s.view.esp0 == StackTop(s.current)
          && s.view.active == s.pcbs[s.current].terminal)
  }

  lemma HaltAgrees(s: State, m: Machine)
    requires Refines(s, m) && Agrees(s) && Enabled(s, Halt) && Defined(s, Halt)
    ensures Shape(HaltCurrent(s)) && Agrees(HaltCurrent(s))
  {
    var t := m.turn.t;
    WhereOnly(s, m, t, |m.stacks[t]| - 1);
    if |m.stacks[t]| > 1 { WhereOnly(s, m, t, |m.stacks[t]| - 2); }
  }

  lemma TickAgrees(s: State, m: Machine)
    requires Refines(s, m) && Agrees(s)
    ensures Shape(TimerTick(s)) && Agrees(TimerTick(s))
  {
    var m' := TickRefines(s, m);
  }

  lemma StartAgrees(s: State, m: Machine, probe: Probe, t: int, isTerminal: bool)
    requires Refines(s, m) && Agrees(s) && probe.Clean() && 0 <= t < TERMINALS
    requires isTerminal || (s.current != NONE && s.status[s.current])
    ensures var s' := ExecuteOn(s, probe, t, isTerminal);
            Shape(s') && Agrees(s')
  {
    if EmptyPid(s.status) != NONE { ExecuteStarts(s, t, isTerminal); }
  }

  lemma StepAgrees(s: State, m: Machine, step: Step)
    requires Refines(s, m) && Agrees(s) && Enabled(s, step) && Loadable(step) && Defined(s, step)
    ensures Shape(Apply(s, step)) && Agrees(Apply(s, step))
  {
    match step {
      case Boot(probe) => StartAgrees(s, m, probe, 0, true);
      case Execute(probe) => StartAgrees(s, m, probe, s.pcbs[s.current].terminal, false);
      case Spawn(t, probe) =>
        var s1 := s.(view := SetDisplay(s.view, t), launched := s.launched[t := true]);
        ViewFrame(s, m, s1.view, s1.launched);
        StartAgrees(s1, m.(launched := s1.launched), probe, t, true);
      case SwitchDisplay(t) =>
      case Halt => HaltAgrees(s, m);
      case Tick => TickAgrees(s, m);
    }
  }

  lemma {:induction false} RunAgrees(s: State, m: Machine, steps: seq<Step>, s': State)
    requires Refines(s, m) && Agrees(s)
    requires IsRun(s, steps, s') && forall i :: 0 <= i < |steps| ==> Loadable(steps[i])
    ensures Shape(s') && Agrees(s')
    decreases |steps|
  {
    if steps != [] {
      var m1 := StepRefines(s, m, steps[0]);
      StepAgrees(s, m, steps[0]);
      RunAgrees(Apply(s, steps[0]), m1, steps[1..], s');
    }
  }

  lemma ReachableAgrees(s: State, steps: seq<Step>, s': State)
    requires Initial(s) && IsRun(s, steps, s') && forall i :: 0 <= i < |steps| ==> Loadable(steps[i])
    ensures Shape(s') && Agrees(s')
  {
    InitialRefines(s);
    RunAgrees(s, START, steps, s');
  }

  /** A leaked pid leaves the caller with another process's page, so agreement is lost exactly then. */
  lemma LeakBreaksAgreement(s: State, probe: Probe)
    requires Shape(s) && Agrees(s) && s.current != NONE && s.status[s.current]
    ensures var s' := ExecuteOn(s, probe, s.pcbs[s.current].terminal, false);
            Shape(s') && (Agrees(s') <==> (probe.Clean() || EmptyPid(s.status) == NONE))
  {
    if EmptyPid(s.status) != NONE { ExecuteStarts(s, s.pcbs[s.current].terminal, false); }
  }

  /** Kernel stacks and task frames of distinct pids never overlap, and no stack reaches a task frame. */
  lemma MemoryIsDisjoint(p: int, q: int)
    requires 0 <= p < q < MAX_PID
    ensures KernelStackBottom(q) + PCB_SIZE <= KernelStackBottom(p) < StackTop(p) < KernelStackBottom(p) + PCB_SIZE
    ensures KernelStackBottom(p) + PCB_SIZE <= 0x800000 <= TaskFrame(p) * 0x1000
    ensures (TaskFrame(p) + 1024) * 0x1000 <= TaskFrame(q) * 0x1000
    ensures StackTop(p) == 0x800000 - 0x2000 * p - 8 && TaskFrame(p) * 0x1000 == 0x800000 + 0x400000 * p
  {
  }
}
