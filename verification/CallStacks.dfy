/** The abstract machine behind the process table: one call stack of pids per terminal, and whose turn it is.
    Every step of `Processes` refines a step of it; the shape of the process forest follows. */
module CallStacks {
  import opened Words
  import opened Paging
  import opened Processes

  /** Nobody has run yet; the top of stack t runs; a root that has halted spins. */
  datatype Turn = Idle | Runs(t: int) | Spins(pid: int)

  datatype Machine = Machine(stacks: seq<seq<int>>, turn: Turn, launched: seq<bool>)

  const START := Machine([[], [], []], Idle, [false, false, false])

  predicate Used(m: Machine, p: int) { exists t :: 0 <= t < |m.stacks| && p in m.stacks[t] }

  /** The lowest pid on no stack, or NONE. */
  function LowestFree(m: Machine, i: int := 1): int
    requires 1 <= i <= MAX_PID
    decreases MAX_PID - i
  {
    if i == MAX_PID then NONE else if !Used(m, i) then i else LowestFree(m, i + 1)
  }

  function Load(m: Machine): int
    requires |m.stacks| == TERMINALS
  {
    |m.stacks[0]| + |m.stacks[1]| + |m.stacks[2]|
  }

  predicate Top(m: Machine, p: int) { exists t :: 0 <= t < |m.stacks| && m.stacks[t] != [] && p == Last(m.stacks[t]) }

  function Last(st: seq<int>): int
    requires st != []
  {
    st[|st| - 1]
  }

  function CurrentPid(m: Machine): int
    requires m.turn.Runs? ==> 0 <= m.turn.t < |m.stacks| && m.stacks[m.turn.t] != []
  {
    match m.turn
    case Idle => NONE
    case Runs(t) => Last(m.stacks[t])
    case Spins(p) => p
  }

  /** The nearest top of stack strictly after pid c in cyclic order, or c itself. */
  ghost predicate NextTop(m: Machine, c: int, p: int) {
    && 0 <= c < MAX_PID && 0 <= p < MAX_PID
    && (p != c ==> Top(m, p))
    && (forall q :: 0 <= q < MAX_PID && q != c && Top(m, q) ==>
          p != c && Distance(c, p) <= Distance(c, q))
  }

  /** Starting a program pushes the lowest free pid on one stack and gives that stack the turn. */
  function Push(m: Machine, t: int, probe: Probe): Machine
    requires |m.stacks| == TERMINALS && 0 <= t < TERMINALS
  {
    if probe.Loads? && LowestFree(m) != NONE then
      m.(stacks := m.stacks[t := m.stacks[t] + [LowestFree(m)]], turn := Runs(t))
    else m
  }

  predicate Sane(m: Machine) {
    && |m.stacks| == |m.launched| == TERMINALS
    && (m.turn.Runs? ==> 0 <= m.turn.t < TERMINALS && m.stacks[m.turn.t] != [])
  }

  ghost predicate Next(m: Machine, step: Step, m': Machine)
    requires Sane(m)
  {
    match step
    case Boot(probe) => m' == Push(m, 0, probe)
    case Execute(probe) => m.turn.Runs? && m' == Push(m, m.turn.t, probe)
    case Spawn(t, probe) => 
      && 1 <= t < TERMINALS
      && m' == if m.launched[t] || LowestFree(m) == NONE then m
               else Push(m.(launched := m.launched[t := true]), t, probe)
    case SwitchDisplay(_) => m' == m
    case Halt =>
      && m.turn.Runs?
      && var t := m.turn.t;
         var st := m.stacks[t];
         m' == if Load(m) == 1 then m
               else m.(stacks := m.stacks[t := st[..|st| - 1]], turn := if |st| == 1 then Spins(st[0]) else Runs(t))
    case Tick =>
      && m'.stacks == m.stacks && m'.launched == m.launched
      && Sane(m')
      && if m.turn.Idle? then m' == m
         else && NextTop(m, CurrentPid(m), CurrentPid(m'))
              && (CurrentPid(m') == CurrentPid(m) ==> m' == m)
              && (CurrentPid(m') != CurrentPid(m) ==> m'.turn.Runs?)
  }

  function Count(status: seq<bool>): nat {
    if status == [] then 0 else Count(status[..|status| - 1]) + if status[|status| - 1] then 1 else 0
  }

  lemma {:induction false} CountUpdate(status: seq<bool>, p: int, b: bool)
    requires 0 <= p < |status|
    ensures Count(status[p := b]) == Count(status) - (if status[p] then 1 else 0) + if b then 1 else 0
  {
    var n := |status| - 1;
    if p < n {
      CountUpdate(status[..n], p, b);
      assert status[p := b][..n] == status[..n][p := b];
    } else {
      assert status[p := b][..n] == status[..n];
    }
  }

  /** How PCB st[i] of terminal t's stack must look. */
  predicate Linked(s: State, st: seq<int>, t: int, i: int)
    requires Shape(s) && 0 <= i < |st|
  {
    var p := st[i];
    && 1 <= p < MAX_PID && s.status[p]
    && s.pcbs[p].pid == p
    && s.pcbs[p].terminal == t
    && s.pcbs[p].isTerminal == (i == 0)
    && s.pcbs[p].child == (if i + 1 < |st| then st[i + 1] else NONE)
    && (i > 0 ==> s.pcbs[p].parent == st[i - 1])
  }

  predicate StackHolds(s: State, st: seq<int>, t: int)
    requires Shape(s)
  {
    Distinct(st) && forall i :: 0 <= i < |st| ==> Linked(s, st, t, i)
  }

  /** A process that is not running is nobody's and has no child; a running one is on its terminal's stack. */
  predicate Placed(s: State, m: Machine, p: int)
    requires Shape(s) && |m.stacks| == TERMINALS && 0 <= p < MAX_PID
  {
    if s.status[p] then 0 <= s.pcbs[p].terminal < TERMINALS && p in m.stacks[s.pcbs[p].terminal]
    else s.pcbs[p].child == NONE
  }

  predicate Refines(s: State, m: Machine) {
    && Shape(s) && Sane(m)
    && !s.status[0]
    && (forall t :: 0 <= t < TERMINALS ==> StackHolds(s, m.stacks[t], t))
    && (forall p :: 0 <= p < MAX_PID ==> Placed(s, m, p))
    && s.total == Load(m) == Count(s.status)
    && s.current == CurrentPid(m)
    && (m.turn.Idle? ==> s.total == 0)
    && (m.turn.Spins? ==> s.total > 0 && 1 <= m.turn.pid < MAX_PID && !s.status[m.turn.pid])
    && s.launched == m.launched
    && (forall t :: 1 <= t < TERMINALS && m.stacks[t] != [] ==> s.launched[t])
  }

  /** PCBs and status of stack t are as in s. */
  lemma StackFrame(s: State, s': State, st: seq<int>, t: int)
    requires Shape(s) && Shape(s') && StackHolds(s, st, t)
    requires forall p :: 0 <= p < MAX_PID && p in st ==>
               s'.status[p] == s.status[p] && s'.pcbs[p] == s.pcbs[p]
    ensures StackHolds(s', st, t)
  {
    forall i | 0 <= i < |st| ensures Linked(s', st, t, i) {
      assert Linked(s, st, t, i);
      assert st[i] in st;
    }
  }

  /** A pid is used exactly when it is running. */
  lemma UsedIsRunning(s: State, m: Machine, p: int)
    requires Refines(s, m) && 0 <= p < MAX_PID
    ensures s.status[p] <==> Used(m, p)
  {
    assert Placed(s, m, p);
    forall t | 0 <= t < TERMINALS && p in m.stacks[t] ensures s.status[p] {
      var i :| 0 <= i < |m.stacks[t]| && m.stacks[t][i] == p;
      assert Linked(s, m.stacks[t], t, i);
    }
  }

  lemma {:induction false} FreeAgrees(s: State, m: Machine, i: int)
    requires Refines(s, m) && 1 <= i <= MAX_PID
    ensures EmptyPid(s.status, i) == LowestFree(m, i)
    decreases MAX_PID - i
  {
    if i < MAX_PID {
      UsedIsRunning(s, m, i);
      FreeAgrees(s, m, i + 1);
    }
  }

  /** A pid on stack t is on no other stack and at no other place. */
  lemma WhereOnly(s: State, m: Machine, t: int, i: int)
    requires Refines(s, m) && 0 <= t < TERMINALS && 0 <= i < |m.stacks[t]|
    ensures Linked(s, m.stacks[t], t, i)
    ensures forall u :: 0 <= u < TERMINALS && m.stacks[t][i] in m.stacks[u] ==> u == t
  {
    var p := m.stacks[t][i];
    assert Linked(s, m.stacks[t], t, i);
    forall u | 0 <= u < TERMINALS && p in m.stacks[u] ensures u == t {
      var j :| 0 <= j < |m.stacks[u]| && m.stacks[u][j] == p;
      assert Linked(s, m.stacks[u], u, j);
    }
  }

  /** The ready processes are exactly the tops of the stacks. */
  lemma ReadyIsTop(s: State, m: Machine, p: int)
    requires Refines(s, m) && 0 <= p < MAX_PID
    ensures Ready(s, p) <==> Top(m, p)
  {
    assert Placed(s, m, p);
    if Ready(s, p) {
      var t := s.pcbs[p].terminal;
      var i :| 0 <= i < |m.stacks[t]| && m.stacks[t][i] == p;
      assert Linked(s, m.stacks[t], t, i);
      forall j | 0 <= j < |m.stacks[t]| ensures m.stacks[t][j] != NONE { assert Linked(s, m.stacks[t], t, j); }
    }
    if Top(m, p) {
      var t :| 0 <= t < |m.stacks| && m.stacks[t] != [] && p == Last(m.stacks[t]);
      assert Linked(s, m.stacks[t], t, |m.stacks[t]| - 1);
    }
  }

  /** The new top after a successful start, and its parent below it. */
  lemma PushedStackHolds(s: State, s': State, st: seq<int>, t: int, pid: int)
    requires Shape(s) && Shape(s') && StackHolds(s, st, t) && pid !in st && 1 <= pid < MAX_PID
    requires s'.status[pid] && s'.pcbs[pid].pid == pid && s'.pcbs[pid].terminal == t
    requires s'.pcbs[pid].child == NONE && s'.pcbs[pid].isTerminal == (st == [])
    requires st != [] ==> s'.pcbs[pid].parent == Last(st) && 0 <= Last(st) < MAX_PID &&
                          s'.pcbs[Last(st)] == s.pcbs[Last(st)].(child := pid)
    requires forall p :: 0 <= p < MAX_PID && p != pid ==> s'.status[p] == s.status[p]
    requires forall i :: 0 <= i < |st| - 1 ==> 0 <= st[i] < MAX_PID && s'.pcbs[st[i]] == s.pcbs[st[i]]
    ensures StackHolds(s', st + [pid], t)
  {
    var st' := st + [pid];
    forall i | 0 <= i < |st'| ensures Linked(s', st', t, i) {
      if i < |st| {
        assert Linked(s, st, t, i);
      }
    }
  }

  /** What a start of `pid` on terminal t by the current process does to every PCB. */
  predicate Started(s: State, s': State, t: int, pid: int, isTerminal: bool)
    requires Shape(s)
  {
    && Shape(s') && 1 <= pid < MAX_PID && !s.status[pid]
    && s'.status == s.status[pid := true] && s'.total == s.total + 1 && s'.current == pid
    && s'.pcbs[pid].pid == pid && s'.pcbs[pid].terminal == t && s'.pcbs[pid].parent == s.current
    && s'.pcbs[pid].child == s.pcbs[pid].child && s'.pcbs[pid].isTerminal == isTerminal
    && s'.launched == s.launched
    && (isTerminal || (s.current != NONE && s.current != pid))
    && (forall p :: 0 <= p < MAX_PID && p != pid ==>
          s'.pcbs[p] == if !isTerminal && p == s.current then s.pcbs[p].(child := pid) else s.pcbs[p])
  }

  lemma StartedKeepsStacks(s: State, m: Machine, s': State, t: int, pid: int, isTerminal: bool)
    requires Refines(s, m) && 0 <= t < TERMINALS && Started(s, s', t, pid, isTerminal)
    requires if isTerminal then m.stacks[t] == [] else m.turn == Runs(t)
    ensures StackHolds(s', m.stacks[t] + [pid], t)
    ensures forall u :: 0 <= u < TERMINALS && u != t ==> StackHolds(s', m.stacks[u], u)
  {
    var st := m.stacks[t];
    UsedIsRunning(s, m, pid);
    assert Placed(s, m, pid);
    if !isTerminal { WhereOnly(s, m, t, |st| - 1); }
    forall u | 0 <= u < TERMINALS && u != t ensures StackHolds(s', m.stacks[u], u) {
      StackFrame(s, s', m.stacks[u], u);
    }
    forall i | 0 <= i < |st| - 1 ensures 0 <= st[i] < MAX_PID && s'.pcbs[st[i]] == s.pcbs[st[i]] {
      assert Linked(s, st, t, i);
      assert st[i] in st;
    }
    PushedStackHolds(s, s', st, t, pid);
  }

  lemma StartedIsPlaced(s: State, m: Machine, s': State, m': Machine, t: int, pid: int, isTerminal: bool)
    requires Refines(s, m) && 0 <= t < TERMINALS && Started(s, s', t, pid, isTerminal)
    requires !isTerminal ==> m.turn == Runs(t)
    requires m'.stacks == m.stacks[t := m.stacks[t] + [pid]]
    ensures forall p :: 0 <= p < MAX_PID ==> Placed(s', m', p)
  {
    if !isTerminal { WhereOnly(s, m, t, |m.stacks[t]| - 1); }
    forall p | 0 <= p < MAX_PID ensures Placed(s', m', p) { assert Placed(s, m, p); }
  }

  lemma ExecuteStarts(s: State, t: int, isTerminal: bool)
    requires Shape(s) && EmptyPid(s.status) != NONE && 0 <= t < TERMINALS
    requires isTerminal || (s.current != NONE && s.status[s.current])
    ensures Started(s, ExecuteOn(s, Loads, t, isTerminal), t, EmptyPid(s.status), isTerminal)
  {
  }

  /** A start that the file system allows refines a push. */
  lemma StartRefines(s: State, m: Machine, t: int, probe: Probe, isTerminal: bool)
    requires Refines(s, m) && 0 <= t < TERMINALS && probe.Clean()
    requires t >= 1 ==> s.launched[t]
    requires if isTerminal then m.stacks[t] == [] else m.turn == Runs(t)
    ensures Refines(ExecuteOn(s, probe, t, isTerminal), Push(m, t, probe))
  {
    FreeAgrees(s, m, 1);
    var pid := EmptyPid(s.status);
    var s', m' := ExecuteOn(s, probe, t, isTerminal), Push(m, t, probe);
    if probe.Loads? && pid != NONE {
      if !isTerminal { WhereOnly(s, m, t, |m.stacks[t]| - 1); }
      ExecuteStarts(s, t, isTerminal);
      StartedKeepsStacks(s, m, s', t, pid, isTerminal);
      StartedIsPlaced(s, m, s', m', t, pid, isTerminal);
      CountUpdate(s.status, pid, true);
    }
  }

  /** What a return to the parent does to every PCB. */
  predicate Returned(s: State, s': State, pid: int, up: int)
    requires Shape(s) && 0 <= pid < MAX_PID && 0 <= up < MAX_PID
  {
    && Shape(s') && pid != up
    && s'.status == s.status[pid := false] && s'.total == s.total - 1 && s'.current == up && s'.launched == s.launched
    && s'.pcbs == s.pcbs[up := s.pcbs[up].(child := NONE)]
  }

  lemma PoppedStackHolds(s: State, s': State, st: seq<int>, t: int)
    requires Shape(s) && StackHolds(s, st, t) && |st| > 1
    requires 0 <= Last(st) < MAX_PID && 0 <= st[|st| - 2] < MAX_PID && Returned(s, s', Last(st), st[|st| - 2])
    ensures StackHolds(s', st[..|st| - 1], t)
  {
    var st' := st[..|st| - 1];
    forall i | 0 <= i < |st'| ensures Linked(s', st', t, i) { assert Linked(s, st, t, i); }
  }

  lemma ReturnedKeepsStacks(s: State, m: Machine, s': State, m': Machine)
    requires Refines(s, m) && m.turn.Runs? && |m.stacks[m.turn.t]| > 1
    requires var st := m.stacks[m.turn.t];
             && 0 <= Last(st) < MAX_PID && 0 <= st[|st| - 2] < MAX_PID && Returned(s, s', Last(st), st[|st| - 2])
             && m'.stacks == m.stacks[m.turn.t := st[..|st| - 1]]
    ensures forall u :: 0 <= u < TERMINALS ==> StackHolds(s', m'.stacks[u], u)
    ensures forall p :: 0 <= p < MAX_PID ==> Placed(s', m', p)
  {
    var t := m.turn.t;
    var st := m.stacks[t];
    WhereOnly(s, m, t, |st| - 1);
    WhereOnly(s, m, t, |st| - 2);
    PoppedStackHolds(s, s', st, t);
    forall u | 0 <= u < TERMINALS ensures StackHolds(s', m'.stacks[u], u) {
      if u != t { StackFrame(s, s', m.stacks[u], u); }
    }
    forall p | 0 <= p < MAX_PID ensures Placed(s', m', p) {
      assert Placed(s, m, p);
      if p in st && p != Last(st) { assert p in st[..|st| - 1]; }
    }
  }

  lemma ReturnReturns(s: State, m: Machine)
    requires Refines(s, m) && m.turn.Runs? && |m.stacks[m.turn.t]| > 1
    ensures !s.pcbs[s.current].isTerminal && Parented(s) && s.total != 1
    ensures var st := m.stacks[m.turn.t];
            && 0 <= Last(st) < MAX_PID && 0 <= st[|st| - 2] < MAX_PID && s.status[Last(st)]
            && Returned(s, HaltCurrent(s), Last(st), st[|st| - 2])
  {
    var st := m.stacks[m.turn.t];
    WhereOnly(s, m, m.turn.t, |st| - 1);
    WhereOnly(s, m, m.turn.t, |st| - 2);
  }

  /** Returning to the parent refines a pop. */
  lemma ReturnRefines(s: State, m: Machine)
    requires Refines(s, m) && m.turn.Runs? && |m.stacks[m.turn.t]| > 1
    ensures !s.pcbs[s.current].isTerminal && Parented(s) && s.total != 1
    ensures var t := m.turn.t;
            Refines(HaltCurrent(s), m.(stacks := m.stacks[t := m.stacks[t][..|m.stacks[t]| - 1]]))
  {
    var st := m.stacks[m.turn.t];
    ReturnReturns(s, m);
    ReturnedKeepsStacks(s, m, HaltCurrent(s), m.(stacks := m.stacks[m.turn.t := st[..|st| - 1]]));
    CountUpdate(s.status, s.current, false);
  }

  /** A root's halt empties its stack and leaves it spinning. */
  lemma RootHaltRefines(s: State, m: Machine)
    requires Refines(s, m) && m.turn.Runs? && |m.stacks[m.turn.t]| == 1 && Load(m) != 1
    ensures s.pcbs[s.current].isTerminal
    ensures Refines(HaltCurrent(s), m.(stacks := m.stacks[m.turn.t := []], turn := Spins(s.current)))
  {
    var t := m.turn.t;
    WhereOnly(s, m, t, 0);
    var s' := HaltCurrent(s);
    var m' := m.(stacks := m.stacks[t := []], turn := Spins(s.current));
    forall u | 0 <= u < TERMINALS ensures StackHolds(s', m'.stacks[u], u) {
      assert StackHolds(s, m.stacks[u], u);
      if u != t { StackFrame(s, s', m.stacks[u], u); }
    }
    forall p | 0 <= p < MAX_PID ensures Placed(s', m', p) { assert Placed(s, m, p); }
    CountUpdate(s.status, s.current, false);
  }

  /** The scan finds the ready process at the least cyclic distance, or comes back to the current one. */
  ghost predicate NearestReady(s: State, r: int)
    requires Shape(s) && s.current != NONE
  {
    && 0 <= r < MAX_PID
    && (r != s.current ==> Ready(s, r))
    && (forall q :: 0 <= q < MAX_PID && q != s.current && Ready(s, q) ==>
          r != s.current && Distance(s.current, r) <= Distance(s.current, q))
  }

  lemma {:induction false} ScanFindsNearest(s: State, i: int)
    requires Shape(s) && s.current != NONE && 0 <= i < MAX_PID
    requires forall q :: 0 <= q < MAX_PID && q != s.current && Ready(s, q) ==>
               i != s.current && Distance(s.current, i) <= Distance(s.current, q)
    ensures NearestReady(s, Scan(s, i))
    decreases Distance(i, s.current)
  {
    if i != s.current && !Ready(s, i) {
      ScanFindsNearest(s, NextPid(i));
    }
  }

  lemma TickRefines(s: State, m: Machine) returns (m': Machine)
    requires Refines(s, m)
    ensures Next(m, Tick, m') && Refines(TimerTick(s), m')
  {
    if m.turn.Idle? { return m; }
    var c := s.current;
    assert s.total > 0 by { if m.turn.Runs? { assert |m.stacks[m.turn.t]| > 0; } }
    ScanFindsNearest(s, NextPid(c));
    var p := Scan(s, NextPid(c));
    forall q | 0 <= q < MAX_PID ensures Ready(s, q) <==> Top(m, q) { ReadyIsTop(s, m, q); }
    assert NextTop(m, c, p);
    if p == c { return m; }
    var t :| 0 <= t < |m.stacks| && m.stacks[t] != [] && p == Last(m.stacks[t]);
    assert Linked(s, m.stacks[t], t, |m.stacks[t]| - 1);
    m' := m.(turn := Runs(t));
    var s' := TimerTick(s);
    forall u | 0 <= u < TERMINALS ensures StackHolds(s', m.stacks[u], u) { StackFrame(s, s', m.stacks[u], u); }
    forall q | 0 <= q < MAX_PID ensures Placed(s', m', q) { assert Placed(s, m, q); }
  }

  /** Nothing but the page mapping and the launch flags differ. */
  lemma ViewFrame(s: State, m: Machine, view: Mapping, launched: seq<bool>)
    requires Refines(s, m) && |launched| == TERMINALS
    requires 0 <= view.active < TERMINALS && 0 <= view.display < TERMINALS
    requires forall t :: 1 <= t < TERMINALS && s.launched[t] ==> launched[t]
    ensures Refines(s.(view := view, launched := launched), m.(launched := launched))
  {
    var s' := s.(view := view, launched := launched);
    forall u | 0 <= u < TERMINALS ensures StackHolds(s', m.stacks[u], u) { StackFrame(s, s', m.stacks[u], u); }
    forall p | 0 <= p < MAX_PID ensures Placed(s', m.(launched := launched), p) { assert Placed(s, m, p); }
  }

  /** A file that passes the magic-number test can be loaded: `Execution.SafeIff` says of which images that holds. */
  predicate Loadable(step: Step) {
    match step
    case Boot(probe) => probe.Clean()
    case Execute(probe) => probe.Clean()
    case Spawn(_, probe) => probe.Clean()
    case _ => true
  }

  /** Every enabled step is defined and refines a step of the abstract machine. */
  lemma StepRefines(s: State, m: Machine, step: Step) returns (m': Machine)
    requires Refines(s, m) && Enabled(s, step) && Loadable(step)
    ensures Defined(s, step) && Next(m, step, m') && Refines(Apply(s, step), m')
  {
    match step {
      case Boot(probe) =>
        m' := BootRefines(s, m, probe);
      case Execute(probe) =>
        m' := ExecuteRefines(s, m, probe);
      case Spawn(t, probe) =>
        m' := SpawnRefines(s, m, t, probe);
      case SwitchDisplay(t) =>
        ViewFrame(s, m, SetDisplay(s.view, t), s.launched);
        m' := m;
      case Halt =>
        m' := HaltRefines(s, m);
      case Tick =>
        m' := TickRefines(s, m);
    }
  }

  lemma BootRefines(s: State, m: Machine, probe: Probe) returns (m': Machine)
    requires Refines(s, m) && s.current == NONE && probe.Clean()
    ensures Next(m, Boot(probe), m') && Refines(ExecuteOn(s, probe, 0, true), m')
  {
    assert m.turn.Idle?;
    StartRefines(s, m, 0, probe, true);
    m' := Push(m, 0, probe);
  }

  lemma ExecuteRefines(s: State, m: Machine, probe: Probe) returns (m': Machine)
    requires Refines(s, m) && s.current != NONE && s.status[s.current] && probe.Clean()
    ensures Next(m, Execute(probe), m') && Refines(ExecuteOn(s, probe, s.pcbs[s.current].terminal, false), m')
  {
    var t := m.turn.t;
    WhereOnly(s, m, t, |m.stacks[t]| - 1);
    if t >= 1 { assert m.stacks[t] != []; }
    StartRefines(s, m, t, probe, false);
    m' := Push(m, t, probe);
  }

  lemma SpawnRefines(s: State, m: Machine, t: int, probe: Probe) returns (m': Machine)
    requires Refines(s, m) && 1 <= t < TERMINALS && probe.Clean()
    ensures Next(m, Spawn(t, probe), m') && Refines(SpawnShell(s, t, probe), m')
  {
    FreeAgrees(s, m, 1);
    var view := SetDisplay(s.view, t);
    if s.launched[t] || EmptyPid(s.status) == NONE {
      ViewFrame(s, m, view, s.launched);
      return m;
    }
    var launched := s.launched[t := true];
    ViewFrame(s, m, view, launched);
    StartRefines(s.(view := view, launched := launched), m.(launched := launched), t, probe, true);
    m' := Push(m.(launched := launched), t, probe);
  }

  lemma HaltRefines(s: State, m: Machine) returns (m': Machine)
    requires Refines(s, m) && Enabled(s, Halt)
    ensures Defined(s, Halt) && Next(m, Halt, m') && Refines(HaltCurrent(s), m')
  {
    var t := m.turn.t;
    if |m.stacks[t]| > 1 {
      ReturnRefines(s, m);
      m' := m.(stacks := m.stacks[t := m.stacks[t][..|m.stacks[t]| - 1]]);
    } else if Load(m) == 1 {
      m' := m;
    } else {
      RootHaltRefines(s, m);
      m' := m.(stacks := m.stacks[t := []], turn := Spins(s.current));
      assert m.stacks[t][..0] == [];
    }
  }

  predicate Initial(s: State) {
    && Shape(s) && s.current == NONE && s.total == 0
    && (forall p :: 0 <= p < MAX_PID ==> !s.status[p] && s.pcbs[p].child == NONE)
    && s.launched == [false, false, false]
    && s.view.active == s.view.display == 0
    && s.view.videoFrame == s.view.userVideoFrame == VIDEO_IND
  }

  /** A run takes enabled steps. Nothing is promised of s' if a step were undefined: that none is, is proved. */
  ghost predicate IsRun(s: State, steps: seq<Step>, s': State)
    decreases |steps|
  {
    if steps == [] then s' == s
    else Shape(s) ==> && Enabled(s, steps[0])
                      && (Defined(s, steps[0]) ==> IsRun(Apply(s, steps[0]), steps[1..], s'))
  }

  ghost predicate IsAbstractRun(m: Machine, steps: seq<Step>, m': Machine)
    decreases |steps|
  {
    if steps == [] then m' == m
    else Sane(m) && exists m1 :: Next(m, steps[0], m1) && IsAbstractRun(m1, steps[1..], m')
  }

  lemma {:induction false} RunRefinesFrom(s: State, m: Machine, steps: seq<Step>, s': State) returns (m': Machine)
    requires Refines(s, m) && IsRun(s, steps, s') && forall i :: 0 <= i < |steps| ==> Loadable(steps[i])
    ensures IsAbstractRun(m, steps, m') && Refines(s', m')
    decreases |steps|
  {
    if steps == [] { return m; }
    var m1 := StepRefines(s, m, steps[0]);
    m' := RunRefinesFrom(Apply(s, steps[0]), m1, steps[1..], s');
  }

  lemma InitialRefines(s: State)
    requires Initial(s)
    ensures Refines(s, START)
  {
    NoneCount(s.status);
    forall p | 0 <= p < MAX_PID ensures Placed(s, START, p) {}
  }

  /** Main result: every run from power-on refines a run of the three call stacks. */
  lemma RunRefines(s: State, steps: seq<Step>, s': State) returns (m: Machine)
    requires Initial(s) && IsRun(s, steps, s') && forall i :: 0 <= i < |steps| ==> Loadable(steps[i])
    ensures IsAbstractRun(START, steps, m) && Refines(s', m)
  {
    InitialRefines(s);
    m := RunRefinesFrom(s, START, steps, s');
  }

  lemma {:induction false} NoneCount(status: seq<bool>)
    requires forall p :: 0 <= p < |status| ==> !status[p]
    ensures Count(status) == 0
  {
    if status != [] { NoneCount(status[..|status| - 1]); }
  }
}
