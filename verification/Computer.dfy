/** The machine of `System` in place: device, kernel, page tables, memory and file system code. */
module Computer {
  import opened Words
  import opened Paging
  import opened Screens
  import opened Console
  import opened Descriptors
  import opened Processes
  import opened CallStacks
  import opened Kernel
  import opened FileSystem
  import opened Directory
  import opened Loader
  import opened Execution
  import opened Keyboard
  import opened FileCalls
  import opened System
  import opened SystemRuns
  import opened SystemScreens
  import LineEditor

  /** Memory that holds these bytes. */
  method MemoryOf(bytes: Bytes) returns (a: array<Byte>)
    ensures fresh(a) && a[..] == bytes
  {
    a := new Byte[|bytes|](i requires 0 <= i < |bytes| => bytes[i]);
  }

  class Hardware {
    const img: Bytes
    const dev: Device
    const stream: Stream
    const window: array<Byte>               // memory at USER_PROGRAM_ADDR of the page being loaded
    var readers: seq<Reading>               // callers' memory and progress of the reads under way
    var wipe: Option<int>                   // the loop index of a halted root's clear
    ghost var got: seq<seq<Bytes>>          // what each descriptor has returned since its open
    ghost var stacks: CallStacks.Machine

    constructor (img: Bytes, dev: Device)
      requires Sound(img) && dev.Valid() && Initial(dev.kernel.View()) && dev.DeskOf().lines == [[], [], []]
      ensures this.img == img && this.dev == dev && Valid() && PowerOn(Whole())
      ensures fresh(stream) && fresh(window)
    {
      this.img := img;
      this.dev := dev;
      stream := new Stream(img);
      window := new Byte[WINDOW];
      readers := seq(MAX_PID, _ => Free);
      wipe := None;
      got := seq(MAX_PID, _ => seq(FDT_SIZE, _ => []));
      stacks := START;
      new;
      PowerOnIsGood(img, Whole());
    }

    ghost predicate Apart() { stream.img == img && window.Length == WINDOW && window != dev.video.mem }

    ghost predicate Valid()
      reads this, stream, dev, dev.kernel, dev.kernel.status, dev.kernel.pcbs
      reads dev.video, dev.video.mem, dev.video.tables.dir, dev.video.tables.table, dev.video.tables.userVideo
    {
      Sound(img) && Apart() && dev.Valid() && Good(img, Whole(), stacks)
    }

    ghost function Whole(): Sys
      requires dev.Valid()
      reads this, stream, dev, dev.kernel, dev.kernel.status, dev.kernel.pcbs
      reads dev.video, dev.video.mem, dev.video.tables.dir, dev.video.tables.table, dev.video.tables.userVideo
    {
      Sys(dev.kernel.View(), dev.DeskOf().lines, dev.prints, dev.ready, dev.mods, got, stream.index, readers, wipe)
    }

    ghost function Shown(): seq<Term>
      requires dev.Valid()
      reads this, dev, dev.kernel, dev.kernel.status, dev.kernel.pcbs
      reads dev.video, dev.video.mem, dev.video.tables.dir, dev.video.tables.table, dev.video.tables.userVideo
    {
      dev.video.Abs()
    }

    /** execute, or the boot code: `junk` is what the stack holds. */
    method Start(cmd: Bytes, junk: Bytes, t: int, isTerminal: bool)
      requires Typed(img) && Apart() && dev.Valid() && NUL !in cmd && |junk| >= HEADER
      requires 0 <= t < TERMINALS && (!isTerminal ==> dev.kernel.current != NONE)
      requires Shape(ExecuteOn(dev.kernel.View(), ProbeOf(img, cmd, junk), t, isTerminal))
      modifies window, dev.kernel, dev.kernel.status, dev.kernel.pcbs
      modifies dev.video, dev.video.tables.dir, dev.video.tables.table, dev.video.tables.userVideo
      ensures dev.Valid() && dev.video.Abs() == old(dev.video.Abs())
      ensures var s := ExecuteOn(old(dev.kernel.View()), ProbeOf(img, cmd, junk), t, isTerminal);
              Whole() == old(Whole()).(procs := s)
    {
      hide ExecuteOn, ProbeOf, GoodInodes, LineEditor.Ahead, Shape, Device.Editing;
      var tempBuf := MemoryOf(junk);
      dev.Launch(cmd, img, tempBuf, window, t, isTerminal);
      assert Shape(dev.kernel.View());
    }

    method HaltCurrent()
      requires dev.Valid() && Processes.Enabled(dev.kernel.View(), Processes.Step.Halt)
      requires Defined(dev.kernel.View(), Processes.Step.Halt)
      requires Shape(Apply(dev.kernel.View(), Processes.Step.Halt))
      modifies `wipe, dev.kernel, dev.kernel.status, dev.kernel.pcbs, dev.video.tables.dir
      ensures dev.Valid() && dev.video.Abs() == old(dev.video.Abs())
      ensures Whole() == old(Whole()).(procs := Apply(old(dev.kernel.View()), Processes.Step.Halt), wipe := None)
    {
      hide Processes.HaltCurrent;
      dev.kernel.HaltProcess();
      wipe := None;
    }

    method TimerTick()
      requires dev.Valid() && Shape(Processes.TimerTick(dev.kernel.View()))
      modifies dev.kernel, dev.video`active
      modifies dev.video.tables.dir, dev.video.tables.table, dev.video.tables.userVideo
      ensures dev.Valid() && dev.video.Abs() == old(dev.video.Abs())
      ensures Whole() == old(Whole()).(procs := Processes.TimerTick(old(dev.kernel.View())))
    {
      hide Processes.TimerTick;
      dev.kernel.PitHandler();
    }

    method Key(c: int, junk: Bytes)
      requires Typed(img) && Apart() && dev.Valid() && 0 <= c < 256 && |junk| >= HEADER
      requires Shape(DoKey(img, Whole(), c, junk).procs)
      modifies window, dev, dev.kernel, dev.kernel.status, dev.kernel.pcbs
      modifies dev.video, dev.video.mem, dev.video.tables.dir, dev.video.tables.table, dev.video.tables.userVideo
      ensures dev.Valid() && Whole() == DoKey(img, old(Whole()), c, junk)
      ensures dev.video.Abs() == ShowKey(old(Whole()), old(dev.video.Abs()), c)
    {
      hide GoodInodes, SpawnShell, ProbeOf, Keyed, HandOver, EditLines;
      ghost var y, screens := Whole(), dev.video.Abs();
      assert SystemScreens.DeskOf(y, screens) == dev.DeskOf();
      KeyEdits(dev.DeskOf(), Press(dev.mods, c), c);
      var tempBuf := MemoryOf(junk);
      dev.Scancode(c, img, tempBuf, window);
      DoKeyIs(img, y, c, junk, dev.kernel.View());
    }

    method Print(buf: Bytes)
      requires dev.Valid() && |buf| < PRINT_LIM
      modifies dev`prints, dev.video.mem, dev.video`xs, dev.video`ys
      ensures dev.Valid() && Whole() == Printed(old(Whole()), buf)
      ensures dev.video.Abs() ==
              old(dev.video.Abs())[dev.video.active := PutAll(old(dev.video.Abs())[dev.video.active], buf)]
    {
      hide PutAll, Overwritten;
      ghost var y := Whole();
      var _ := dev.TerminalWrite(buf);
      assert dev.kernel.View() == y.procs;
    }

    method UserStore(low: int, b: Byte)
      requires dev.Valid() && PAGE_SIZE <= low < LARGE_PAGE
      modifies dev.video.mem
      ensures dev.Valid() && Whole() == old(Whole())
      ensures dev.video.Abs() == UserStored(old(dev.video.Abs()), low, b, dev.video.active, dev.video.display)
    {
      dev.video.UserStore(low, b);
    }

    /** A halted root's clear begins. */
    method StartClear()
      requires dev.Valid() && Whole().lines[Whole().procs.view.display] == []
      modifies `wipe, dev.video`xs, dev.video`ys
      ensures dev.Valid() && Whole() == old(Whole()).(wipe := Some(0))
      ensures dev.video.Abs() ==
              old(dev.video.Abs())[dev.video.display := Homed(old(dev.video.Abs())[dev.video.display])]
    {
      ghost var y := Whole();
      dev.video.HomeDisplay();
      assert dev.kernel.View() == y.procs;
      wipe := Some(0);
    }

    /** Its loop goes on, on whatever terminal is displayed. */
    method GoOnClearing(n: int)
      requires dev.Valid() && wipe.Some? && 0 <= wipe.value && 0 <= n && wipe.value + n <= ROWS * COLS
      modifies `wipe, dev.video.mem
      ensures dev.Valid() && Whole() == old(Whole()).(wipe := Some(old(wipe.value) + n))
      ensures dev.video.Abs() == old(dev.video.Abs()[dev.video.display := Blanked(dev.video.Abs()[dev.video.display],
                                                                                  wipe.value, n)])
    {
      hide Blanked, Shape;
      ghost var y := Whole();
      dev.video.BlankDisplay(wipe.value, n);
      assert dev.kernel.View() == y.procs;
      wipe := Some(wipe.value + n);
    }

    /** terminal_read has left its waiting loop. */
    method StartRead(count: int, mem: Bytes)
      requires dev.Valid() && 0 <= dev.kernel.current < |readers|
      modifies `readers
      ensures Whole() == old(Whole()).(readers := old(readers)[dev.kernel.current := Copying(mem, count, 0)])
    {
      readers := readers[dev.kernel.current := Copying(mem, count, 0)];
    }

    /** Its memcpy goes on, from whatever the print buffer holds now. */
    method GoOnReading(n: int)
      requires dev.Valid() && Readers(Whole()) && AtRead(Whole())
      requires 0 <= n <= readers[dev.kernel.current].count - readers[dev.kernel.current].done
      modifies `readers
      ensures Whole() == CopiedOn(old(Whole()), n)
    {
      hide CopiedPart, LineEditor.Ahead;
      var r := readers[dev.kernel.current];
      var buf := MemoryOf(r.mem);
      dev.CopyLine(buf, r.done, n);
      readers := readers[dev.kernel.current := Copying(buf[..], r.count, r.done + n)];
    }

    /** The reply on the current process's own table. */
    ghost function ReplyNow(call: Call): Reply
      requires dev.Valid() && dev.kernel.current != NONE && GoodInodes(img)
      reads this, stream, dev, dev.kernel, dev.kernel.status, dev.kernel.pcbs
      reads dev.video, dev.video.mem, dev.video.tables.dir, dev.video.tables.table, dev.video.tables.userVideo
    {
      ReplyIn(img, dev.kernel.pcbs[dev.kernel.current].files, stream.index, call)
    }

    method OpenIn(name: Bytes) returns (a: Answer)
      requires WellFormed(img) && Apart() && dev.Valid() && dev.kernel.current != NONE && NUL !in name
      modifies stream, dev.kernel.pcbs
      ensures dev.Valid() && a == old(ReplyNow(OpenCall(name))).answer
      ensures var reply := old(ReplyNow(OpenCall(name)));
              Whole() == Filed(old(Whole()), reply.files, reply.index)
    {
      hide OpenFile;
      OpenAnswer(img, dev.kernel.pcbs[dev.kernel.current].files, stream.index, name);
      var fd := SysOpen(dev.kernel, stream, name);
      a := Answer(fd, []);
    }

    method CloseIn(fd: int) returns (a: Answer)
      requires GoodInodes(img) && dev.Valid() && dev.kernel.current != NONE
      modifies dev.kernel.pcbs
      ensures dev.Valid() && a == old(ReplyNow(CloseCall(fd))).answer
      ensures var reply := old(ReplyNow(CloseCall(fd)));
              Whole() == Filed(old(Whole()), reply.files, reply.index)
    {
      var code := SysClose(dev.kernel, fd);
      a := Answer(code, []);
    }

    method ReadIn(fd: int, n: int, other: Answer) returns (a: Answer)
      requires GoodInodes(img) && Apart() && dev.Valid() && dev.kernel.current != NONE && stream.index <= Dentries(img)
      requires other.code >= -1
      modifies stream, dev.kernel.pcbs
      ensures dev.Valid() && a == old(ReplyNow(ReadCall(fd, n, other))).answer
      ensures var reply := old(ReplyNow(ReadCall(fd, n, other)));
              Whole() == Filed(old(Whole()), reply.files, reply.index)
    {
      hide LineEditor.Ahead, ReadFile, DirAnswer;
      var files := dev.kernel.pcbs[dev.kernel.current].files;
      var buf := new Byte[INODE_BLOCKS * BLOCK];
      if 0 <= fd < FDT_SIZE { AnswerFits(img, files[fd], stream.index, n, other); }
      var code := SysRead(dev.kernel, stream, fd, buf, n, other);
      if code < 0 {
        a := Answer(code, []);
      } else if Stores(files[fd]) {
        a := Answer(code, buf[..code]);
      } else {
        a := other;
      }
    }

    method TableCall(call: Call) returns (a: Answer)
      requires WellFormed(img) && Apart() && dev.Valid() && dev.kernel.current != NONE && stream.index <= Dentries(img)
      requires !call.Start? && (call.OpenCall? ==> NUL !in call.name) && (call.ReadCall? ==> call.other.code >= -1)
      modifies stream, dev.kernel.pcbs
      ensures dev.Valid() && a == old(ReplyNow(call)).answer
      ensures Whole() == Filed(old(Whole()), old(ReplyNow(call)).files, old(ReplyNow(call)).index)
    {
      match call {
        case OpenCall(name) => a := OpenIn(name);
        case CloseCall(fd) => a := CloseIn(fd);
        case ReadCall(fd, n, other) => a := ReadIn(fd, n, other);
      }
    }

    /** open, read or close by the process that has the processor. */
    method FileCall(call: Call) returns (a: Answer)
      requires WellFormed(img) && Apart() && dev.Valid() && System.Sane(img, Whole()) && HasProcessor(dev.kernel.View())
      requires Allowed(FilesOf(Whole()), dev.kernel.current, call)
      requires !call.Start? && (call.OpenCall? ==> NUL !in call.name)
      modifies `got, stream, dev.kernel.pcbs
      ensures dev.Valid() && Whole() == DoCall(img, old(Whole()), call)
      ensures a == ReplyTo(img, FilesOf(old(Whole())), old(dev.kernel.current), call).answer
    {
      hide ReplyIn;
      ghost var y, w := Whole(), FilesOf(Whole());
      assert w.tables[y.procs.current] == y.procs.pcbs[y.procs.current].files;
      a := TableCall(call);
      got := FileCalls.Do(img, w, y.procs.current, call).got;
    }

    /** The end of terminal_read. */
    method ClearMark() returns (a: Answer)
      requires dev.Valid() && Readers(Whole()) && AtRead(Whole())
      modifies dev`ready
      ensures dev.Valid() && a == ReadAnswer(readers[dev.kernel.current]) && a.code >= 0
      ensures Whole() == old(Whole()).(ready := old(dev.ready)[dev.video.active := false])
    {
      hide LineEditor.Ahead;
      var r := readers[dev.kernel.current];
      HasNul(r);
      var buf := MemoryOf(r.mem);
      var n := dev.FinishRead(buf);
      a := Answer(n, buf[..n]);
    }

    /** And of read on descriptor 0. */
    method FinishLine() returns (a: Answer)
      requires Sound(img) && Apart() && dev.Valid() && CanDo(img, Whole(), EndRead)
      modifies `got, `readers, stream, dev`ready, dev.kernel.pcbs
      ensures dev.Valid() && Whole() == Ended(img, old(Whole()))
      ensures a == ReadAnswer(old(Whole()).readers[old(dev.kernel.current)])
    {
      hide FileCalls.Inv, LineEditor.Ahead, ReadAnswer;
      var count := readers[dev.kernel.current].count;
      a := ClearMark();
      var _ := FileCall(ReadCall(0, count, a));
      readers := readers[dev.kernel.current := Free];
    }

    method TakeStep(e: Event)
      requires Sound(img) && Apart() && dev.Valid() && CanDo(img, Whole(), e) && IsStep(e)
      requires Shape(Advance(img, Whole(), e).procs)
      modifies `wipe, window, dev.kernel, dev.kernel.status, dev.kernel.pcbs
      modifies dev.video, dev.video.tables.dir, dev.video.tables.table, dev.video.tables.userVideo
      ensures dev.Valid() && Whole() == Advance(img, old(Whole()), e) && dev.video.Abs() == old(dev.video.Abs())
    {
      hide Device.Valid, FileCalls.Inv, LineEditor.Ahead;
      hide ExecuteOn, Processes.TimerTick, Processes.HaltCurrent, ProbeOf;
      match e {
        case Boot(junk) => Start(SHELL, junk, 0, true);
        case Execute(cmd, junk) => Start(cmd, junk, dev.kernel.pcbs[dev.kernel.current].terminal, false);
        case Halt => HaltCurrent();
        case Tick => TimerTick();
      }
    }

    /** Keys and program output. */
    method Display(e: Event)
      requires Sound(img) && Apart() && dev.Valid() && CanDo(img, Whole(), e) && (e.Scan? || e.Write? || e.Poke?)
      requires Shape(Advance(img, Whole(), e).procs) && Visible(Whole(), dev.video.Abs())
      modifies window, dev, dev.kernel, dev.kernel.status, dev.kernel.pcbs
      modifies dev.video, dev.video.mem, dev.video.tables.dir, dev.video.tables.table, dev.video.tables.userVideo
      ensures dev.Valid() && Whole() == Advance(img, old(Whole()), e)
      ensures dev.video.Abs() == Show(img, old(Whole()), old(dev.video.Abs()), e)
    {
      hide Device.Valid, FileCalls.Inv, LineEditor.Ahead, Readers, DoKey, ShowKey, Printed, PutAll, UserStored;
      dev.SameVideo();
      match e {
        case Scan(c, junk) => Key(c, junk);
        case Write(buf) => Print(buf);
        case Poke(low, b) => UserStore(low, b);
      }
    }

    /** A halted root's clear. */
    method Clearing(e: Event)
      requires Sound(img) && dev.Valid() && CanDo(img, Whole(), e) && Tidy(Whole(), e)
      requires (e.RootClear? || e.ClearCells?) && Visible(Whole(), dev.video.Abs())
      modifies `wipe, dev.video.mem, dev.video`xs, dev.video`ys
      ensures dev.Valid() && Whole() == Advance(img, old(Whole()), e)
      ensures dev.video.Abs() == Show(img, old(Whole()), old(dev.video.Abs()), e)
    {
      hide Device.Valid, FileCalls.Inv, LineEditor.Ahead, Readers, Blanked, Homed;
      dev.SameVideo();
      match e {
        case RootClear => StartClear();
        case ClearCells(n) => GoOnClearing(n);
      }
    }

    /** Events inside a read, and file calls. */
    method Serve(e: Event) returns (a: Answer)
      requires Sound(img) && Apart() && dev.Valid() && CanDo(img, Whole(), e)
      requires e.BeginRead? || e.CopyPart? || e.EndRead? || e.File?
      modifies `got, `readers, stream, dev`ready, dev.kernel.pcbs
      ensures dev.Valid() && Whole() == Advance(img, old(Whole()), e) && dev.video.Abs() == old(dev.video.Abs())
      ensures a == AnswerOf(img, old(Whole()), e)
    {
      hide Device.Valid, FileCalls.Inv, LineEditor.Ahead, DoCall;
      a := Answer(0, []);
      match e {
        case BeginRead(count, mem) => StartRead(count, mem);
        case CopyPart(n) => GoOnReading(n);
        case EndRead => a := FinishLine();
        case File(call) => a := FileCall(call);
      }
    }

    method Happen(e: Event) returns (a: Answer)
      requires Sound(img) && Apart() && dev.Valid() && CanDo(img, Whole(), e) && Tidy(Whole(), e)
      requires Shape(Advance(img, Whole(), e).procs) && Visible(Whole(), Shown())
      modifies this, stream, window, dev, dev.kernel, dev.kernel.status, dev.kernel.pcbs
      modifies dev.video, dev.video.mem, dev.video.tables.dir, dev.video.tables.table, dev.video.tables.userVideo
      ensures dev.Valid() && Whole() == Advance(img, old(Whole()), e) && stacks == old(stacks)
      ensures Shown() == Show(img, old(Whole()), old(Shown()), e)
      ensures a == AnswerOf(img, old(Whole()), e)
    {
      hide Device.Valid, FileCalls.Inv, LineEditor.Ahead, Advance, CanDo;
      a := Answer(if e.Write? then |e.buf| else 0, []);
      if IsStep(e) {
        TakeStep(e);
      } else if e.BeginRead? || e.CopyPart? || e.EndRead? || e.File? {
        a := Serve(e);
      } else if e.RootClear? || e.ClearCells? {
        Clearing(e);
      } else {
        Display(e);
      }
    }

    /** One event on the machine itself. */
    method Step(e: Event) returns (a: Answer)
      requires Valid() && System.Enabled(img, Whole(), e) && Tidy(Whole(), e)
      modifies this, stream, window, dev, dev.kernel, dev.kernel.status, dev.kernel.pcbs
      modifies dev.video, dev.video.mem, dev.video.tables.dir, dev.video.tables.table, dev.video.tables.userVideo
      ensures Valid() && old(CanDo(img, Whole(), e) && Visible(Whole(), Shown()))
      ensures Whole() == Advance(img, old(Whole()), e) && a == AnswerOf(img, old(Whole()), e)
      ensures Shown() == Show(img, old(Whole()), old(Shown()), e)
    {
      hide Refines, FileCalls.Inv, LineEditor.Ahead, Advance, AnswerOf, Show;
      ghost var m' := EventIsGood(img, Whole(), stacks, e);
      assert SystemScreens.DeskOf(Whole(), Shown()) == dev.DeskOf();
      a := Happen(e);
      stacks := m';
    }

    /** A whole run on the machine itself. */
    method Run(events: seq<Event>) returns (answers: seq<Answer>)
      requires Valid() && IsHistory(img, Whole(), events) && IsTidy(img, Whole(), events)
      modifies this, stream, window, dev, dev.kernel, dev.kernel.status, dev.kernel.pcbs
      modifies dev.video, dev.video.mem, dev.video.tables.dir, dev.video.tables.table, dev.video.tables.userVideo
      ensures Valid() && Whole() == AdvanceAll(img, old(Whole()), events)
      ensures answers == AnswersOf(img, old(Whole()), events)
      ensures Shown() == ShowAll(img, old(Whole()), old(Shown()), events)
    {
      hide Device.Valid, Refines, FileCalls.Inv, LineEditor.Ahead, Advance, AnswerOf, Show, Visible, Shown;
      ghost var y, screens := Whole(), Shown();
      answers := [];
      var i := 0;
      while i < |events|
        invariant 0 <= i <= |events| && Valid()
        invariant IsHistory(img, Whole(), events[i..]) && IsTidy(img, Whole(), events[i..])
        invariant AdvanceAll(img, Whole(), events[i..]) == AdvanceAll(img, y, events)
        invariant answers + AnswersOf(img, Whole(), events[i..]) == AnswersOf(img, y, events)
        invariant ShowAll(img, Whole(), Shown(), events[i..]) == ShowAll(img, y, screens, events)
      {
        assert events[i..][1..] == events[i + 1..];
        var a := Step(events[i]);
        answers := answers + [a];
        i := i + 1;
      }
    }

    /** Process isolation in every reachable state. */
    lemma UserReachesOwnMemory(linear: int)
      requires Valid() && dev.kernel.current != NONE && 0 <= linear < 0x1_0000_0000
      requires dev.video.tables.Translate(linear, true).Physical?
      ensures var a := dev.video.tables.Translate(linear, true).address;
              && (InTaskFrame(a, dev.kernel.current) || PAGE_SIZE <= a < LARGE_PAGE)
              && (forall p :: 0 <= p < MAX_PID && p != dev.kernel.current ==> !InTaskFrame(a, p))
              && !(LARGE_PAGE <= a < 2 * LARGE_PAGE)
    {
      dev.kernel.UserReachesOwnMemory(linear);
    }
  }

  /** Power-on: paging_init, keyboard_init and empty tables. */
  method PowerUp(img: Bytes, tableFrame: int, userVideoFrame: int) returns (c: Hardware)
    requires Sound(img) && tableFrame != userVideoFrame
    ensures c.img == img && c.Valid() && PowerOn(c.Whole())
  {
    var video := new Video(tableFrame, userVideoFrame);
    var kernel := new Core(video);
    var dev := new Device(kernel);
    c := new Hardware(img, dev);
  }

  /** Enter on the machine itself while no read there has begun to copy, then any run that leaves the terminal's mailbox
      alone until a read there is about to end: the caller gets the typed line and its length, provided its count
      exceeds it and no NUL was typed. */
  method EnterThenRead(c: Hardware, junk: Bytes, events: seq<Event>) returns (a: Answer)
    requires c.Valid() && CanDo(c.img, c.Whole(), Scan(ENTER, junk)) && NoCopyBegun(c.Whole(), c.dev.video.display)
    requires var y1, t := Advance(c.img, c.Whole(), Scan(ENTER, junk)), c.dev.video.display;
             && IsHistory(c.img, y1, events) && IsTidy(c.img, y1, events) && Quiet(c.img, y1, events, t)
             && var y2 := AdvanceAll(c.img, y1, events);
                CanDo(c.img, y2, EndRead) && Home(y2.procs) == t
    modifies c, c.stream, c.window, c.dev, c.dev.kernel, c.dev.kernel.status, c.dev.kernel.pcbs
    modifies c.dev.video, c.dev.video.mem
    modifies c.dev.video.tables.dir, c.dev.video.tables.table, c.dev.video.tables.userVideo
    ensures c.Valid()
    ensures var y1 := Advance(c.img, old(c.Whole()), Scan(ENTER, junk));
            var y2 := AdvanceAll(c.img, y1, events);
            GotLine(y2.readers[y2.procs.current], LineAt(old(c.Whole())), a)
  {
    hide Refines, FileCalls.Inv, LineEditor.Ahead, Advance, AnswerOf, Show;
    LineArrives(c.img, c.Whole(), c.stacks, junk, events);
    var _ := c.Step(Scan(ENTER, junk));
    var _ := c.Run(events);
    a := c.Step(EndRead);
  }

  lemma OpenAnswer(img: Bytes, files: seq<Descriptor>, index: nat, name: Bytes)
    requires Sized(img) && |files| == FDT_SIZE
    ensures OpenFile(img, files, index, name).answer.bytes == []
  {
  }

  /** No answer is longer than the largest file. */
  lemma AnswerFits(img: Bytes, d: Descriptor, index: nat, n: int, other: Answer)
    requires GoodInodes(img)
    ensures Stores(d) ==> |ReadFrom(img, d, index, n, other).bytes| <= INODE_BLOCKS * BLOCK
  {
    if AsWord(d.inode) < Inodes(img) { assert GoodInode(img, AsWord(d.inode)); }
    if index < Dentries(img) { assert Names(img)[index] == Name(img, index); }
  }
}
