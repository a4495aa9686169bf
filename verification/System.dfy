/** The whole machine: processes, files, keyboard and print buffers under one sequence of events, on one image. What
    the events show on the screens is in `SystemScreens`; nothing here depends on it. */
module System {
  import opened Words
  import opened Paging
  import opened Screens
  import opened Descriptors
  import opened Processes
  import opened CallStacks
  import Forest
  import opened FileSystem
  import opened Loader
  import opened Execution
  import opened Keyboard
  import opened FileCalls

  /** terminal_read of one process: the memory at the caller's buffer, the count asked for, and the bytes copied so
      far. It runs with interrupts on. */
  datatype Reading = Free | Copying(mem: Bytes, count: int, done: int)

  /** Processes, keyboard state, the bytes each descriptor has returned since its open, the directory index, reads
      under way by pid, and how far a halted root's clear has come. */
  datatype Sys = Sys(procs: State, lines: seq<Bytes>, prints: seq<Bytes>, ready: seq<bool>, mods: Mods,
                     got: seq<seq<Bytes>>, index: nat, readers: seq<Reading>, wipe: Option<int>)

  /** `junk` is the uninitialised buffer of execute. */
  datatype Event =
    | Boot(junk: Bytes)
    | Execute(cmd: Bytes, junk: Bytes)
    | Halt
    | Tick
    | RootClear                                  // a terminal root that has halted starts its clear
    | ClearCells(n: int)                         // and blanks n more cells
    | Scan(c: int, junk: Bytes)                  // one scancode
    | Write(buf: Bytes)                          // write on descriptor 1
    | BeginRead(count: int, mem: Bytes)          // read on descriptor 0 has seen the ready mark
    | CopyPart(n: int)                           // its memcpy moves n more bytes
    | EndRead                                    // it clears the mark and returns the length
    | Poke(low: int, b: Byte)                    // a store through the user's video window
    | File(call: Call)                           // open, close, and read on other descriptors

  function FilesOf(y: Sys): FileCalls.World
    requires Shape(y.procs)
  {
    var tables := seq(MAX_PID, p requires 0 <= p < MAX_PID => y.procs.pcbs[p].files);
    FileCalls.World(tables, y.procs.status, y.got, y.index)
  }

  predicate Mailboxes(y: Sys) {
    |y.prints| == |y.ready| == TERMINALS && forall t :: 0 <= t < TERMINALS ==> |y.prints[t]| == PRINT_LIM
  }

  predicate Typing(y: Sys) { Shape(y.procs) && LinesFit(y.lines) && Mailboxes(y) && |y.mods.pressed| == KEYS }

  /** The caller's memory holds a NUL behind the bytes asked for. */
  predicate GoodReading(r: Reading) {
    r.Copying? ==> 0 <= r.done <= r.count <= PRINT_LIM && r.count <= |r.mem| && NUL in r.mem[r.count..]
  }

  /** Only running processes without a child read. */
  predicate Readers(y: Sys)
    requires Shape(y.procs)
  {
    && |y.readers| == MAX_PID
    && forall p :: 0 <= p < MAX_PID ==> GoodReading(y.readers[p]) && (y.readers[p].Copying? ==> Ready(y.procs, p))
  }

  /** Every running process's descriptors are faithful to their files. */
  predicate Sane(img: Bytes, y: Sys)
    requires GoodInodes(img)
  {
    && Typing(y) && Readers(y) && FileCalls.Inv(img, FilesOf(y))
    && (y.wipe.Some? ==> 0 <= y.wipe.value <= ROWS * COLS)
  }

  predicate HasProcessor(s: State)
    requires Shape(s)
  {
    s.current != NONE && s.status[s.current]
  }

  /** The terminal of the process that has the processor. */
  function Home(s: State): int
    requires Shape(s) && HasProcessor(s)
  {
    s.pcbs[s.current].terminal
  }

  /** The process that has the processor runs its own code. */
  predicate AtWork(y: Sys)
    requires Shape(y.procs) && Readers(y)
  {
    HasProcessor(y.procs) && y.readers[y.procs.current].Free?
  }

  /** It is inside terminal_read. */
  predicate AtRead(y: Sys)
    requires Shape(y.procs) && Readers(y)
  {
    HasProcessor(y.procs) && y.readers[y.procs.current].Copying?
  }

  predicate Enabled(img: Bytes, y: Sys, e: Event)
    requires GoodInodes(img) && Sane(img, y)
  {
    match e
    case Boot(junk) => |junk| >= HEADER && y.procs.current == NONE
    case Execute(cmd, junk) => NUL !in cmd && |junk| >= HEADER && AtWork(y)
    case Halt => AtWork(y)
    case Tick => true
    case RootClear => y.procs.current != NONE && !y.procs.status[y.procs.current]
    case ClearCells(n) =>
      && y.procs.current != NONE && !y.procs.status[y.procs.current]
      && y.wipe.Some? && 0 <= n <= ROWS * COLS - y.wipe.value
    case Scan(c, junk) => 0 <= c < 256 && |junk| >= HEADER
    case Write(buf) => AtWork(y) && |buf| < PRINT_LIM
    case BeginRead(count, mem) => AtWork(y) && y.ready[y.procs.view.active] && GoodReading(Copying(mem, count, 0))
    case CopyPart(n) => AtRead(y) && 0 <= n <= y.readers[y.procs.current].count - y.readers[y.procs.current].done
    case EndRead => AtRead(y) && y.readers[y.procs.current].done == y.readers[y.procs.current].count
    case Poke(low, _) => AtWork(y) && PAGE_SIZE <= low < LARGE_PAGE
    case File(call) =>
      && AtWork(y) && Allowed(FilesOf(y), y.procs.current, call)
      && !call.Start? && (call.ReadCall? ==> call.fd != 0) && (call.OpenCall? ==> NUL !in call.name)
  }

  predicate IsStep(e: Event) { e.Boot? || e.Execute? || e.Halt? || e.Tick? }

  /** The process step behind an event. */
  function StepOf(img: Bytes, e: Event): Step
    requires GoodInodes(img) && IsStep(e) && (e.Boot? || e.Execute? ==> |e.junk| >= HEADER)
  {
    match e
    case Boot(junk) => Step.Boot(ProbeOf(img, SHELL, junk))
    case Execute(cmd, junk) => Step.Execute(ProbeOf(img, cmd, junk))
    case Halt => Step.Halt
    case Tick => Step.Tick
  }

  /** Alt with a function key. */
  function KeyStep(img: Bytes, c: int, junk: Bytes): Step
    requires GoodInodes(img) && |junk| >= HEADER
  {
    if c == F1 then SwitchDisplay(0) else Spawn(c - F1, ProbeOf(img, SHELL, junk))
  }

  /** The event is enabled and follows no bad pointer. */
  predicate CanDo(img: Bytes, y: Sys, e: Event)
    requires GoodInodes(img)
  {
    Sane(img, y) && Enabled(img, y, e) && (e.Halt? ==> Defined(y.procs, Step.Halt))
  }

  function DoKey(img: Bytes, y: Sys, c: int, junk: Bytes): Sys
    requires GoodInodes(img) && Typing(y) && 0 <= c < 256 && |junk| >= HEADER
  {
    var m, display := Press(y.mods, c), y.procs.view.display;
    if Switches(m, c) then y.(mods := m, procs := Apply(y.procs, KeyStep(img, c, junk)))
    else
      y.(mods := m, lines := EditLines(y.lines, display, m, c), prints := HandOver(y.prints, y.lines, display, m, c),
         ready := if c == ENTER then y.ready[display := true] else y.ready)
  }

  /** The process part of a key, as the keyboard's own contract says it. */
  lemma DoKeyIs(img: Bytes, y: Sys, c: int, junk: Bytes, procs: State)
    requires GoodInodes(img) && Typing(y) && 0 <= c < 256 && |junk| >= HEADER
    requires procs == if !Switches(Press(y.mods, c), c) then y.procs
                      else if c == F1 then y.procs.(view := SetDisplay(y.procs.view, 0))
                      else SpawnShell(y.procs, c - F1, ProbeOf(img, SHELL, junk))
    ensures DoKey(img, y, c, junk).procs == procs
  {
    hide SpawnShell, ProbeOf, GoodInodes;
    if Switches(Press(y.mods, c), c) { assert Apply(y.procs, KeyStep(img, c, junk)) == procs; }
  }

  /** The current process has another descriptor table, and the directory index moved. */
  function Filed(y: Sys, files: seq<Descriptor>, index: nat): Sys
    requires Shape(y.procs) && y.procs.current != NONE
  {
    y.(procs := WithFiles(y.procs, files), index := index)
  }

  /** A call on the descriptors of the current process. */
  function DoCall(img: Bytes, y: Sys, call: Call): Sys
    requires GoodInodes(img) && Sane(img, y) && HasProcessor(y.procs) && Allowed(FilesOf(y), y.procs.current, call)
  {
    var w := FileCalls.Do(img, FilesOf(y), y.procs.current, call);
    Filed(y, w.tables[y.procs.current], w.index).(got := w.got)
  }

  /** What terminal_read answers: the C length of the memory, and the bytes up to it. */
  function ReadAnswer(r: Reading): Answer
    requires r.Copying? && GoodReading(r)
  {
    HasNul(r);
    Answer(StrlenOf(r.mem), r.mem[..StrlenOf(r.mem)])
  }

  lemma HasNul(r: Reading)
    requires r.Copying? && GoodReading(r)
    ensures NUL in r.mem
  {
    var k :| 0 <= k < |r.mem[r.count..]| && r.mem[r.count..][k] == NUL;
    assert r.mem[r.count + k] == NUL;
  }

  /** The read of the current process moves n more bytes. */
  function CopiedOn(y: Sys, n: int): Sys
    requires Typing(y) && Readers(y) && AtRead(y)
    requires 0 <= n <= y.readers[y.procs.current].count - y.readers[y.procs.current].done
  {
    var r := y.readers[y.procs.current];
    var mem := CopiedPart(r.mem, y.prints[y.procs.view.active], r.done, n);
    y.(readers := y.readers[y.procs.current := Copying(mem, r.count, r.done + n)])
  }

  /** The read of the current process returns: `read` also moves the position of descriptor 0. */
  function Ended(img: Bytes, y: Sys): Sys
    requires GoodInodes(img) && CanDo(img, y, EndRead)
  {
    var r := y.readers[y.procs.current];
    DoCall(img, y, ReadCall(0, r.count, ReadAnswer(r))).(ready := y.ready[y.procs.view.active := false],
                                                         readers := y.readers[y.procs.current := Free])
  }

  /** terminal_write: output and the reader's lines share the print buffer. */
  function Printed(y: Sys, buf: Bytes): Sys
    requires Typing(y) && |buf| < PRINT_LIM
  {
    var t := y.procs.view.active;
    y.(prints := y.prints[t := Overwritten(y.prints[t], buf)])
  }

  function Advance(img: Bytes, y: Sys, e: Event): Sys
    requires GoodInodes(img) && CanDo(img, y, e)
  {
    match e
    case RootClear => y.(wipe := Some(0))
    case ClearCells(n) => y.(wipe := Some(y.wipe.value + n))
    case Scan(c, junk) => DoKey(img, y, c, junk)
    case Write(buf) => Printed(y, buf)
    case BeginRead(count, mem) => y.(readers := y.readers[y.procs.current := Copying(mem, count, 0)])
    case CopyPart(n) => CopiedOn(y, n)
    case EndRead => Ended(img, y)
    case Poke(_, _) => y
    case File(call) => DoCall(img, y, call)
    case Halt => y.(procs := Apply(y.procs, Step.Halt), wipe := None)
    case _ => y.(procs := Apply(y.procs, StepOf(img, e)))
  }

  /** What the calling program gets. */
  function AnswerOf(img: Bytes, y: Sys, e: Event): Answer
    requires GoodInodes(img) && CanDo(img, y, e)
  {
    match e
    case Write(buf) => Answer(|buf|, [])
    case EndRead => ReadAnswer(y.readers[y.procs.current])
    case File(call) => ReplyTo(img, FilesOf(y), y.procs.current, call).answer
    case _ => Answer(0, [])
  }

  /** Every event is enabled when it comes. Nothing is asked after an undefined one: that none is, is proved. */
  predicate IsHistory(img: Bytes, y: Sys, events: seq<Event>)
    requires GoodInodes(img)
    decreases |events|
  {
    events != [] && Sane(img, y) ==>
      && Enabled(img, y, events[0])
      && (CanDo(img, y, events[0]) ==> IsHistory(img, Advance(img, y, events[0]), events[1..]))
  }

  function AdvanceAll(img: Bytes, y: Sys, events: seq<Event>): Sys
    requires GoodInodes(img)
    decreases |events|
  {
    if events == [] || !CanDo(img, y, events[0]) then y else AdvanceAll(img, Advance(img, y, events[0]), events[1..])
  }

  function AnswersOf(img: Bytes, y: Sys, events: seq<Event>): seq<Answer>
    requires GoodInodes(img)
    decreases |events|
  {
    if events == [] || !CanDo(img, y, events[0]) then []
    else [AnswerOf(img, y, events[0])] + AnswersOf(img, Advance(img, y, events[0]), events[1..])
  }

  /** The invariant of the whole machine. */
  ghost predicate Good(img: Bytes, y: Sys, m: Machine)
    requires GoodInodes(img)
  {
    Sane(img, y) && Refines(y.procs, m) && Forest.Agrees(y.procs)
  }

  ghost predicate PowerOn(y: Sys) {
    && Initial(y.procs) && Typing(y) && y.lines == [[], [], []] && y.index == 0 && y.wipe.None?
    && |y.got| == |y.readers| == MAX_PID
    && forall p :: 0 <= p < MAX_PID ==> |y.got[p]| == FDT_SIZE && y.readers[p].Free?
  }

  lemma PowerOnIsGood(img: Bytes, y: Sys)
    requires GoodInodes(img) && PowerOn(y)
    ensures Good(img, y, START)
  {
    InitialRefines(y.procs);
  }

  /** Process steps change tables only to initialise them. */
  lemma StepKeepsFiles(img: Bytes, y: Sys, step: Step)
    requires GoodInodes(img) && Sane(img, y) && Processes.Enabled(y.procs, step) && Loadable(step)
    requires Defined(y.procs, step) && Shape(Apply(y.procs, step))
    ensures FileCalls.Inv(img, FilesOf(y.(procs := Apply(y.procs, step))))
  {
    var w, w' := FilesOf(y), FilesOf(y.(procs := Apply(y.procs, step)));
    forall p | 0 <= p < MAX_PID && w'.started[p] ensures TableOk(img, w'.tables[p], w'.got[p]) {
      StepFiles(y.procs, step, p);
      if w.started[p] {
        assert TableOk(img, w.tables[p], w.got[p]);
      } else {
        InitFilesAreOk(img, w.tables[p], w.got[p]);
      }
    }
  }

  lemma InitFilesAreOk(img: Bytes, files: seq<Descriptor>, got: seq<Bytes>)
    requires GoodInodes(img) && |files| == |got| == FDT_SIZE
    ensures TableOk(img, InitFiles(files), got)
  {
  }

  /** A process that waits in a read keeps its place while others, or nobody, take the step. */
  lemma StepKeepsReady(s: State, step: Step, p: int)
    requires Shape(s) && Processes.Enabled(s, step) && Defined(s, step) && 0 <= p < MAX_PID && Ready(s, p)
    requires step.Execute? || step.Halt? ==> p != s.current
    ensures var s' := Apply(s, step);
            |s'.status| == |s'.pcbs| == MAX_PID && Ready(s', p) && s'.pcbs[p].terminal == s.pcbs[p].terminal
  {
  }

  /** A process that steps is not inside a read. */
  predicate StepsFreely(y: Sys, step: Step)
    requires Shape(y.procs) && Readers(y)
  {
    (step.Execute? || step.Halt?) && y.procs.current != NONE ==> y.readers[y.procs.current].Free?
  }

  lemma StepKeepsReaders(img: Bytes, y: Sys, step: Step)
    requires Shape(y.procs) && Readers(y) && Processes.Enabled(y.procs, step) && Defined(y.procs, step)
    requires StepsFreely(y, step) && Shape(Apply(y.procs, step))
    ensures Readers(y.(procs := Apply(y.procs, step)))
  {
    forall p | 0 <= p < MAX_PID && y.readers[p].Copying? ensures Ready(Apply(y.procs, step), p) {
      StepKeepsReady(y.procs, step, p);
    }
  }

  lemma ProcessStepIsGood(img: Bytes, y: Sys, m: Machine, step: Step) returns (m': Machine)
    requires GoodInodes(img) && Good(img, y, m) && Processes.Enabled(y.procs, step) && Loadable(step)
    requires StepsFreely(y, step)
    ensures Defined(y.procs, step) && Good(img, y.(procs := Apply(y.procs, step)), m')
  {
    m' := StepRefines(y.procs, m, step);
    Forest.StepAgrees(y.procs, m, step);
    StepKeepsFiles(img, y, step);
    StepKeepsReaders(img, y, step);
  }

  lemma CallIsGood(img: Bytes, y: Sys, m: Machine, call: Call)
    requires WellFormed(img) && Good(img, y, m) && HasProcessor(y.procs)
    requires Allowed(FilesOf(y), y.procs.current, call)
    ensures Good(img, DoCall(img, y, call), m)
  {
    var w := FileCalls.Do(img, FilesOf(y), y.procs.current, call);
    CallKeepsInv(img, FilesOf(y), y.procs.current, call);
    FilesFrame(y.procs, m, w.tables[y.procs.current]);
    var w' := FilesOf(DoCall(img, y, call));
    assert w'.started == w.started && w'.got == w.got && w'.index == w.index;
    assert w'.tables == w.tables;
  }

  /** The image is well formed and holds no executable larger than the window. */
  predicate Sound(img: Bytes) { WellFormed(img) && Safe(img) }

  lemma ProbesAreClean(img: Bytes, cmd: Bytes, junk: Bytes)
    requires Sound(img) && NUL !in cmd && |junk| >= HEADER
    ensures ProbeOf(img, cmd, junk).Clean()
  {
    SafeIff(img);
  }

  lemma KeyIsGood(img: Bytes, y: Sys, m: Machine, c: int, junk: Bytes) returns (m': Machine)
    requires Sound(img) && Good(img, y, m) && CanDo(img, y, Scan(c, junk))
    ensures Good(img, DoKey(img, y, c, junk), m')
  {
    var mods := Press(y.mods, c);
    if Switches(mods, c) {
      ProbesAreClean(img, SHELL, junk);
      m' := ProcessStepIsGood(img, y, m, KeyStep(img, c, junk));
    } else {
      m' := m;
    }
  }

  lemma StepIsGood(img: Bytes, y: Sys, m: Machine, e: Event) returns (m': Machine)
    requires Sound(img) && Good(img, y, m) && Enabled(img, y, e) && IsStep(e)
    ensures CanDo(img, y, e) && Good(img, Advance(img, y, e), m')
  {
    ProbesOfEvent(img, e);
    m' := ProcessStepIsGood(img, y, m, StepOf(img, e));
  }

  lemma AnswerIsLength(r: Reading)
    requires r.Copying? && GoodReading(r)
    ensures 0 <= ReadAnswer(r).code <= |r.mem|
  {
  }

  /** Marks and finished reads do not matter to the rest. */
  lemma GoodFrame(img: Bytes, y: Sys, m: Machine, y': Sys)
    requires GoodInodes(img) && Good(img, y, m) && y' == y.(ready := y'.ready, readers := y'.readers)
    requires |y'.ready| == TERMINALS && |y'.readers| == MAX_PID
    requires forall p :: 0 <= p < MAX_PID ==> y'.readers[p] == y.readers[p] || y'.readers[p].Free?
    ensures Good(img, y', m)
  {
  }

  lemma EndIsGood(img: Bytes, y: Sys, m: Machine)
    requires Sound(img) && Good(img, y, m) && CanDo(img, y, EndRead)
    ensures Good(img, Ended(img, y), m)
  {
    hide Refines, Forest.Agrees, ReadAnswer;
    var r := y.readers[y.procs.current];
    AnswerIsLength(r);
    CallIsGood(img, y, m, ReadCall(0, r.count, ReadAnswer(r)));
    GoodFrame(img, DoCall(img, y, ReadCall(0, r.count, ReadAnswer(r))), m, Ended(img, y));
  }

  lemma CopyIsGood(img: Bytes, y: Sys, m: Machine, n: int)
    requires Sound(img) && Good(img, y, m) && CanDo(img, y, CopyPart(n))
    ensures Good(img, CopiedOn(y, n), m)
  {
    var r, r' := y.readers[y.procs.current], CopiedOn(y, n).readers[y.procs.current];
    assert r'.mem[r.count..] == r.mem[r.count..];
  }

  lemma BeginIsGood(img: Bytes, y: Sys, m: Machine, e: Event)
    requires Sound(img) && Good(img, y, m) && CanDo(img, y, e) && e.BeginRead?
    ensures Good(img, Advance(img, y, e), m)
  {
    CurrentIsReady(y.procs, m);
  }

  /** The running process has no child. */
  lemma CurrentIsReady(s: State, m: Machine)
    requires Refines(s, m) && HasProcessor(s)
    ensures Ready(s, s.current)
  {
    Forest.CurrentIsLeaf(s, m);
  }

  /** Every enabled event is defined and keeps the invariant. */
  lemma EventIsGood(img: Bytes, y: Sys, m: Machine, e: Event) returns (m': Machine)
    requires Sound(img) && Good(img, y, m) && Enabled(img, y, e)
    ensures CanDo(img, y, e) && Good(img, Advance(img, y, e), m')
  {
    hide Refines, FileCalls.Inv, Forest.Agrees, Readers, DoCall, Ended;
    m' := m;
    match e {
      case Scan(c, junk) => m' := KeyIsGood(img, y, m, c, junk);
      case BeginRead(_, _) => BeginIsGood(img, y, m, e);
      case CopyPart(n) => CopyIsGood(img, y, m, n);
      case EndRead => EndIsGood(img, y, m);
      case File(call) => CallIsGood(img, y, m, call);
      case RootClear => OutputIsGood(img, y, m, e);
      case ClearCells(_) => OutputIsGood(img, y, m, e);
      case Write(_) => OutputIsGood(img, y, m, e);
      case Poke(_, _) => OutputIsGood(img, y, m, e);
      case _ => m' := StepIsGood(img, y, m, e);
    }
  }

  lemma OutputIsGood(img: Bytes, y: Sys, m: Machine, e: Event)
    requires Sound(img) && Good(img, y, m) && CanDo(img, y, e)
    requires e.RootClear? || e.ClearCells? || e.Write? || e.Poke?
    ensures Good(img, Advance(img, y, e), m)
  {
  }

  /** Main result: over every run of the whole machine the process table refines the call stacks, the mapping agrees
      with the current PCB, only running processes without a child are inside a read, and every descriptor is faithful
      to its file. */
  lemma {:induction false} RunIsGood(img: Bytes, y: Sys, m: Machine, events: seq<Event>) returns (m': Machine)
    requires Sound(img) && Good(img, y, m) && IsHistory(img, y, events)
    ensures Good(img, AdvanceAll(img, y, events), m')
    decreases |events|
  {
    if events == [] { return m; }
    var m1 := EventIsGood(img, y, m, events[0]);
    m' := RunIsGood(img, Advance(img, y, events[0]), m1, events[1..]);
  }

  lemma ProbesOfEvent(img: Bytes, e: Event)
    requires Sound(img) && (e.Boot? || e.Execute? || e.Scan? ==> |e.junk| >= HEADER) && (e.Execute? ==> NUL !in e.cmd)
    ensures IsStep(e) ==> Loadable(StepOf(img, e))
    ensures e.Scan? ==> ProbeOf(img, SHELL, e.junk).Clean()
  {
    if e.Boot? || e.Scan? { ProbesAreClean(img, SHELL, e.junk); }
    if e.Execute? { ProbesAreClean(img, e.cmd, e.junk); }
  }

  /** Every open descriptor of every running process lies inside its file: a read of a regular one, for any size,
      neither fails nor strays. */
  lemma ReadsAreInFile(img: Bytes, y: Sys, p: int, fd: int, n: int, other: Answer)
    requires GoodInodes(img) && Sane(img, y) && 0 <= p < MAX_PID && y.procs.status[p] && IsSize(n)
    requires 0 <= fd < FDT_SIZE && y.procs.pcbs[p].files[fd].open
    ensures var d := y.procs.pcbs[p].files[fd];
            InFile(img, d) && (d.driver == Regular ==> ReadFrom(img, d, y.index, n, other).code >= 0)
  {
    var w := FilesOf(y);
    assert TableOk(img, w.tables[p], w.got[p]);
    assert Faithful(img, w.tables[p][fd], w.got[p][fd]);
    if w.tables[p][fd].driver == Regular { ReadGoesOn(img, w.tables[p][fd], w.got[p][fd], y.index, n, other); }
  }

  /** Main result: whatever event starts a process, and whatever its pid's table held before, the new process has the
      terminal on descriptors 0 and 1 and all others closed. */
  lemma NewProcessTable(img: Bytes, y: Sys, m: Machine, e: Event, p: int)
    requires Sound(img) && Good(img, y, m) && CanDo(img, y, e) && 0 <= p < MAX_PID
    requires |Advance(img, y, e).procs.status| == |Advance(img, y, e).procs.pcbs| == MAX_PID
    requires !y.procs.status[p] && Advance(img, y, e).procs.status[p]
    ensures var files := Advance(img, y, e).procs.pcbs[p].files;
            && |files| == FDT_SIZE
            && files[0].open && files[0].driver == Stdin && files[1].open && files[1].driver == Stdout
            && forall fd :: 2 <= fd < FDT_SIZE ==> !files[fd].open
  {
    hide Refines, FileCalls.Inv, Forest.Agrees, Readers, Apply;
    if IsStep(e) {
      StepFiles(y.procs, StepOf(img, e), p);
    } else if e.Scan? && Switches(Press(y.mods, e.c), e.c) {
      StepFiles(y.procs, KeyStep(img, e.c, e.junk), p);
    }
  }
}
