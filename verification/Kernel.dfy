/** systemcall.c and pit.c in place: the globals, the PCBs, the page entries and the TSS field they update.
    Each routine is proved to make exactly the transition of `Processes` and to leave every screen alone. */
module Kernel {
  import opened Words
  import opened Paging
  import opened Descriptors
  import opened Processes
  import opened Console
  import CallStacks
  import Forest

  class Core {
    const status: array<bool>       // process_status
    const pcbs: array<Pcb>
    var total: int                  // total_running_process
    var current: int                // current_pid
    var launched: seq<bool>         // terminal_2_running and terminal_3_running
    var esp0: int                   // tss.esp0
    const video: Video

    constructor (video: Video)
      requires video.Valid() && video.active == video.display == 0
      ensures this.video == video && fresh(status) && fresh(pcbs)
      ensures Valid() && CallStacks.Initial(View())
    {
      status := new bool[MAX_PID](_ => false);
      var closed := Descriptor(Stdin, 0, 0, false);
      var files := seq(FDT_SIZE, _ => closed);
      pcbs := new Pcb[MAX_PID](_ => Pcb(0, NONE, NONE, 0, false, files));
      total, current, esp0 := 0, NONE, 0x800000;
      launched := [false, false, false];
      this.video := video;
    }

    ghost predicate Valid()
      reads this, status, pcbs, video, video.mem, video.tables.dir, video.tables.table, video.tables.userVideo
    {
      && video.Valid()
      && status.Length == pcbs.Length == MAX_PID
      && Shape(View())
    }

    ghost function View(): State
      requires video.Valid() && status.Length == pcbs.Length == MAX_PID
      reads this, status, pcbs, video, video.mem, video.tables.dir, video.tables.table, video.tables.userVideo
    {
      State(status[..], total, current, pcbs[..], launched,
            Mapping(video.display, video.active, video.tables.dir[USER_SPACE_START].address,
                    video.tables.table[VIDEO_IND].address, video.tables.userVideo[VIDEO_IND].address, esp0))
    }

    /** Process isolation: a user-mode access that does not fault reaches the 4 MB frame of the current process or
        the low 4 MB, and so neither another process's frame nor the kernel's page. */
    lemma UserReachesOwnMemory(linear: int)
      requires Valid() && Forest.Agrees(View()) && current != NONE && 0 <= linear < 0x1_0000_0000
      requires video.tables.Translate(linear, true).Physical?
      ensures var a := video.tables.Translate(linear, true).address;
              && (InTaskFrame(a, current) || PAGE_SIZE <= a < LARGE_PAGE)
              && (forall p :: 0 <= p < MAX_PID && p != current ==> !InTaskFrame(a, p))
              && !(LARGE_PAGE <= a < 2 * LARGE_PAGE)
    {
      video.tables.TranslateLive(linear, true);
    }

    /** get_empty_pid */
    method GetEmptyPid() returns (pid: int)
      requires Valid()
      ensures pid == EmptyPid(status[..])
    {
      var i := 1;
      while i < MAX_PID
        invariant 1 <= i <= MAX_PID && EmptyPid(status[..]) == EmptyPid(status[..], i)
      {
        if !status[i] { return i; }
        i := i + 1;
      }
      return NONE;
    }

    /** pcb_init */
    method PcbInit(pid: int)
      requires 0 <= pid < pcbs.Length && |pcbs[pid].files| == FDT_SIZE
      modifies pcbs
      ensures pcbs[..] == old(pcbs[..])[pid := old(pcbs[pid]).(pid := pid, files := InitFiles(old(pcbs[pid].files)))]
    {
      var files := pcbs[pid].files;
      files := files[0 := files[0].(driver := Stdin, open := true)];
      files := files[1 := files[1].(driver := Stdout, open := true)];
      var i := 2;
      while i < FDT_SIZE
        invariant 2 <= i <= FDT_SIZE && |files| == FDT_SIZE
        invariant forall k :: 0 <= k < i ==> files[k] == InitFiles(pcbs[pid].files)[k]
        invariant forall k :: i <= k < FDT_SIZE ==> files[k] == pcbs[pid].files[k]
      {
        files := files[i := files[i].(open := false)];
        i := i + 1;
      }
      assert files == InitFiles(pcbs[pid].files);
      pcbs[pid] := pcbs[pid].(pid := pid, files := files);
    }

    /** execute_with_terminal_num from the choice of a pid to loading. */
    method TakePid(pid: int, t: int)
      requires Valid() && 0 <= pid < MAX_PID && 0 <= t < TERMINALS
      modifies this`total, status, pcbs, video`active, video.tables.dir, video.tables.table, video.tables.userVideo
      ensures video.Valid() && View() == Claim(old(View()), pid, t) && video.Abs() == old(video.Abs())
    {
      status[pid] := true;
      total := total + 1;
      PcbInit(pid);
      video.tables.SetupTaskPage(pid);
      video.SetActive(t);
    }

    /** The rest of execute_with_terminal_num once the program is loaded. */
    method EnterProcess(pid: int, t: int, isTerminal: bool)
      requires video.Valid() && status.Length == pcbs.Length == MAX_PID && 0 <= pid < MAX_PID
      requires !isTerminal ==> 0 <= current < MAX_PID
      modifies this, pcbs
      ensures video.Valid() && View() == Enter(old(View()), pid, t, isTerminal) && launched == old(launched)
    {
      pcbs[pid] := pcbs[pid].(terminal := t, parent := current, isTerminal := isTerminal);
      if !isTerminal { pcbs[current] := pcbs[current].(child := pid); }
      esp0 := KernelStackBottom(pid) + PCB_SIZE - STACK_GUARD;
      current := pid;
    }

    /** halt, up to the `sti` of the terminal-root branch; the screen that branch then clears is a console step. */
    method HaltProcess()
      requires Valid() && Enabled(View(), Halt) && Defined(View(), Halt)
      modifies this, status, pcbs, video.tables.dir
      ensures video.Valid() && View() == HaltCurrent(old(View())) && video.Abs() == old(video.Abs())
    {
      var pcb := pcbs[current];
      if total == 1 { return; }
      total := total - 1;
      status[pcb.pid] := false;
      if pcb.isTerminal { return; }
      var up := pcbs[pcb.parent].pid;
      video.tables.SetupTaskPage(up);
      current := up;
      pcbs[pcb.parent] := pcbs[pcb.parent].(child := NONE);
      esp0 := KernelStackBottom(pcb.parent) + PCB_SIZE - STACK_GUARD;
    }

    /** pit_handler */
    method PitHandler()
      requires Valid()
      modifies this, video`active, video.tables.dir, video.tables.table, video.tables.userVideo
      ensures video.Valid() && View() == TimerTick(old(View())) && video.Abs() == old(video.Abs())
    {
      if total == 0 { return; }
      var i := NextPid(pcbs[current].pid);
      while i != pcbs[current].pid
        invariant 0 <= i < MAX_PID
        invariant Scan(View(), i) == Scan(View(), NextPid(current))
        decreases Distance(i, current)
      {
        if i != 0 && status[i] && pcbs[i].child == NONE { break; }
        i := NextPid(i);
      }
      if i != pcbs[current].pid {
        video.tables.SetupTaskPage(i);
        esp0 := KernelStackBottom(i) + PCB_SIZE - STACK_GUARD;
        current := i;
        video.SetActive(pcbs[i].terminal);
      }
    }
  }
}
