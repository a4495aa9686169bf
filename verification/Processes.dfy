/** The process table of systemcall.c and pit.c as a state machine over whole system calls and interrupts. */
module Processes {
  import opened Words
  import opened Paging
  import opened Descriptors

  const MAX_PID := 8
  const NONE := -1               // a NULL PCB pointer; other PCB pointers are named by their pid
  const PCB_SIZE := 0x2000
  const STACK_GUARD := 8

  datatype Pcb = Pcb(pid: int, parent: int, child: int, terminal: int, isTerminal: bool, files: seq<Descriptor>)

  /** What follows the current process: page entries, tss.esp0 and the two terminal numbers. */
  datatype Mapping = Mapping(display: int, active: int, userFrame: int, videoFrame: int, userVideoFrame: int, esp0: int)

  /** `launched[t]` is terminal_2_running for t == 1 and terminal_3_running for t == 2. */
  datatype State =
    State(status: seq<bool>, total: int, current: int, pcbs: seq<Pcb>, launched: seq<bool>, view: Mapping)

  /** What the file system says about a command's file name. Loading can fail with -1, run off the end of the
      user page, which stops the machine, or succeed. */
  datatype Probe = NotFound | NotExecutable | LoadFails | LoadFaults | Loads {
    /** The answer comes before a pid is taken, or is success. */
    predicate Clean() { !LoadFails? && !LoadFaults? }
  }

  datatype Step =
    | Boot(probe: Probe)
    | Execute(probe: Probe)
    | Spawn(t: int, probe: Probe)
    | SwitchDisplay(t: int)
    | Halt
    | Tick

  function KernelStackBottom(pid: int): int { 0x800000 - PCB_SIZE * (pid + 1) }

  function StackTop(pid: int): int { KernelStackBottom(pid) + PCB_SIZE - STACK_GUARD }

  function TaskFrame(pid: int): int { pid * 1024 + 2048 }

  predicate InTaskFrame(a: int, pid: int) {
    TaskFrame(pid) * PAGE_SIZE <= a < TaskFrame(pid) * PAGE_SIZE + LARGE_PAGE
  }

  function SetActive(m: Mapping, t: int): Mapping {
    m.(active := t, videoFrame := TerminalFrame(t, m.display), userVideoFrame := TerminalFrame(t, m.display))
  }

  function SetDisplay(m: Mapping, t: int): Mapping { SetActive(m.(display := t), m.active) }

  predicate Shape(s: State) {
    && |s.status| == |s.pcbs| == MAX_PID
    && |s.launched| == TERMINALS
    && NONE <= s.current < MAX_PID
    && 0 <= s.view.active < TERMINALS && 0 <= s.view.display < TERMINALS
    && (forall p :: 0 <= p < MAX_PID ==> |s.pcbs[p].files| == FDT_SIZE && 0 <= s.pcbs[p].terminal < TERMINALS)
    && (s.current == NONE ==> s.total == 0)
    && (s.current != NONE ==> s.pcbs[s.current].pid == s.current)
  }

  /** get_empty_pid from slot i on. */
  function EmptyPid(status: seq<bool>, i: int := 1): (r: int)
    requires |status| == MAX_PID && 1 <= i <= MAX_PID
    ensures r == NONE ==> forall p :: i <= p < MAX_PID ==> status[p]
    ensures r != NONE ==> i <= r < MAX_PID && !status[r] && forall p :: i <= p < r ==> status[p]
    decreases MAX_PID - i
  {
    if i == MAX_PID then NONE else if !status[i] then i else EmptyPid(status, i + 1)
  }

  /** The bookkeeping before load_executable: take the pid, initialise its PCB, map its page and terminal. */
  function Claim(s: State, pid: int, t: int): State
    requires Shape(s) && 0 <= pid < MAX_PID
  {
    var pcb := s.pcbs[pid].(pid := pid, files := InitFiles(s.pcbs[pid].files));
    s.(status := s.status[pid := true], total := s.total + 1, pcbs := s.pcbs[pid := pcb],
       view := SetActive(s.view.(userFrame := TaskFrame(pid)), t))
  }

  /** The bookkeeping after load_executable: link the PCB and make it current. */
  function Enter(s: State, pid: int, t: int, isTerminal: bool): State
    requires |s.pcbs| == MAX_PID && 0 <= pid < MAX_PID
    requires !isTerminal ==> 0 <= s.current < MAX_PID
  {
    var pcbs := s.pcbs[pid := s.pcbs[pid].(terminal := t, parent := s.current, isTerminal := isTerminal)];
    var pcbs' := if isTerminal then pcbs else pcbs[s.current := pcbs[s.current].(child := pid)];
    s.(pcbs := pcbs', current := pid, view := s.view.(esp0 := StackTop(pid)))
  }

  /** execute_with_terminal_num */
  function ExecuteOn(s: State, probe: Probe, t: int, isTerminal: bool): State
    requires Shape(s) && (!isTerminal ==> s.current != NONE)
  {
    var pid := EmptyPid(s.status);
    if probe.NotFound? || probe.NotExecutable? || pid == NONE then s
    else if !probe.Clean() then Claim(s, pid, t)
    else Enter(Claim(s, pid, t), pid, t, isTerminal)
  }

  /** What it returns, where 0 stands for the new process having the processor. */
  function ExecuteCode(s: State, probe: Probe): int
    requires Shape(s)
  {
    if EmptyPid(s.status) == NONE || probe.NotFound? || probe.NotExecutable? then -1
    else if probe.LoadFails? then -1
    else if probe.LoadFaults? then FAULT
    else 0
  }

  predicate Parented(s: State)
    requires Shape(s) && s.current != NONE
  {
    var p := s.pcbs[s.current].parent;
    0 <= p < MAX_PID && 0 <= s.pcbs[p].pid < MAX_PID
  }

  /** halt: restart, terminal-root and return-to-parent branches. */
  function HaltCurrent(s: State): State
    requires Shape(s) && s.current != NONE
    requires s.total != 1 && !s.pcbs[s.current].isTerminal ==> Parented(s)
  {
    var pcb := s.pcbs[s.current];
    if s.total == 1 then s
    else
      var s' := s.(total := s.total - 1, status := s.status[pcb.pid := false]);
      if pcb.isTerminal then s'
      else
        var up := s.pcbs[pcb.parent].pid;
        s'.(current := up, pcbs := s.pcbs[pcb.parent := s.pcbs[pcb.parent].(child := NONE)],
            view := s.view.(userFrame := TaskFrame(up), esp0 := StackTop(pcb.parent)))
  }

  predicate Ready(s: State, p: int)
    requires |s.status| == |s.pcbs| == MAX_PID && 0 <= p < MAX_PID
  {
    p != 0 && s.status[p] && s.pcbs[p].child == NONE
  }

  function NextPid(pid: int): (r: int)
    requires 0 <= pid < MAX_PID
    ensures 0 <= r < MAX_PID && r == if pid == MAX_PID - 1 then 0 else pid + 1
  {
    (pid + 1) % MAX_PID
  }

  /** Cyclic distance from one pid up to another. */
  function Distance(from: int, to: int): (d: int)
    requires 0 <= from < MAX_PID && 0 <= to < MAX_PID
    ensures 0 <= d < MAX_PID
  {
    if to >= from then to - from else to - from + MAX_PID
  }

  /** The scan of pit_handler, from pid i until a ready process or the current one. */
  function Scan(s: State, i: int): (r: int)
    requires Shape(s) && s.current != NONE && 0 <= i < MAX_PID
    ensures 0 <= r < MAX_PID && (r == s.current || Ready(s, r))
    decreases Distance(i, s.current)
  {
    if i == s.current || Ready(s, i) then i else Scan(s, NextPid(i))
  }

  function SwitchTo(s: State, p: int): State
    requires Shape(s) && 0 <= p < MAX_PID
  {
    s.(current := p, view := SetActive(s.view.(userFrame := TaskFrame(p), esp0 := StackTop(p)), s.pcbs[p].terminal))
  }

  /** pit_handler */
  function TimerTick(s: State): State
    requires Shape(s)
  {
    if s.total == 0 || s.current == NONE then s
    else
      var p := Scan(s, NextPid(s.current));
      if p == s.current then s else SwitchTo(s, p)
  }

  /** Alt-F2 and Alt-F3 in scancode_processing. */
  function SpawnShell(s: State, t: int, probe: Probe): State
    requires Shape(s) && 1 <= t < TERMINALS
  {
    var s1 := s.(view := SetDisplay(s.view, t));
    if s.launched[t] || EmptyPid(s.status) == NONE then s1
    else ExecuteOn(s1.(launched := s.launched[t := true]), probe, t, true)
  }

  /** When a step can happen. Boot code runs only while no process has ever run; system calls come
      from a running process; a root that has halted only spins. */
  predicate Enabled(s: State, step: Step)
    requires Shape(s)
  {
    match step
    case Boot(_) => s.current == NONE
    case Execute(_) => s.current != NONE && s.status[s.current]
    case Spawn(t, _) => 1 <= t < TERMINALS
    case SwitchDisplay(t) => 0 <= t < TERMINALS
    case Halt => s.current != NONE && s.status[s.current]
    case Tick => true
  }

  /** The one pointer a step follows: halt reads its parent's PCB. */
  predicate Defined(s: State, step: Step)
    requires Shape(s) && Enabled(s, step)
  {
    step.Halt? && s.total != 1 && !s.pcbs[s.current].isTerminal ==> Parented(s)
  }

  function Apply(s: State, step: Step): State
    requires Shape(s) && Enabled(s, step) && Defined(s, step)
  {
    match step
    case Boot(probe) => ExecuteOn(s, probe, 0, true)
    case Execute(probe) => ExecuteOn(s, probe, s.pcbs[s.current].terminal, false)
    case Spawn(t, probe) => SpawnShell(s, t, probe)
    case SwitchDisplay(t) => s.(view := SetDisplay(s.view, t))
    case Halt => HaltCurrent(s)
    case Tick => TimerTick(s)
  }

  /** Starts and spawns that load preserve the shape of the state. */
  lemma StartKeepsShape(s: State, probe: Probe, t: int, isTerminal: bool)
    requires Shape(s) && (!isTerminal ==> s.current != NONE) && probe.Clean() && 0 <= t < TERMINALS
    ensures Shape(ExecuteOn(s, probe, t, isTerminal))
  {
  }

  lemma SpawnShows(s: State, t: int, probe: Probe)
    requires Shape(s) && 1 <= t < TERMINALS
    ensures SpawnShell(s, t, probe).view.display == t && 0 <= SpawnShell(s, t, probe).view.active < TERMINALS
  {
  }

  lemma SpawnKeepsShape(s: State, t: int, probe: Probe)
    requires Shape(s) && 1 <= t < TERMINALS && probe.Clean()
    ensures Shape(SpawnShell(s, t, probe))
  {
    StartKeepsShape(s.(view := SetDisplay(s.view, t), launched := s.launched[t := true]), probe, t, true);
  }
}
