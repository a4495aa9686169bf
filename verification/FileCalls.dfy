/** open, read and close over the descriptor tables of many processes. */
module FileCalls {
  import opened Words
  import opened FileSystem
  import opened Directory
  import opened Descriptors
  import opened Processes
  import opened CallStacks
  import opened Kernel

  /** What a call answers: its return value and the bytes it stored. */
  datatype Answer = Answer(code: int, bytes: Bytes)

  /** The lowest closed slot from i on, or FDT_SIZE. */
  function LowestClosed(files: seq<Descriptor>, i: int := 0): (r: int)
    requires |files| == FDT_SIZE && 0 <= i <= FDT_SIZE
    ensures i <= r <= FDT_SIZE && (forall k :: i <= k < r ==> files[k].open) && (r < FDT_SIZE ==> !files[r].open)
    decreases FDT_SIZE - i
  {
    if i == FDT_SIZE || !files[i].open then i else LowestClosed(files, i + 1)
  }

  /** fileType 0, 1 and 2; a type the source does not know keeps the slot's old routines. */
  function DriverFor(fileType: int, stale: Driver): Driver {
    if fileType == 0 then Rtc else if fileType == 1 then Directory else if fileType == 2 then Regular else stale
  }

  /** What a call leaves behind: the caller's table, the directory index all processes share, and the answer. */
  datatype Reply = Reply(files: seq<Descriptor>, index: nat, answer: Answer)

  /** Opening a directory, by whatever name, starts the shared read-out again. */
  function OpenFile(img: Bytes, files: seq<Descriptor>, index: nat, name: Bytes): Reply
    requires Sized(img) && |files| == FDT_SIZE
  {
    var e, fd := FirstNamed(img, name), LowestClosed(files);
    if e == -1 || fd == FDT_SIZE then Reply(files, index, Answer(-1, []))
    else
      var d := Descriptor(DriverFor(FileType(img, e), files[fd].driver), InodeOf(img, e), 0, true);
      Reply(files[fd := d], if FileType(img, e) == 1 then 0 else index, Answer(fd, []))
  }

  /** dir_read: the name at the shared index, or nothing at the end. */
  function DirAnswer(img: Bytes, index: nat): Answer
    requires Sized(img)
  {
    if index < Dentries(img) then Answer(|Names(img)[index]|, Names(img)[index]) else Answer(0, [])
  }

  /** `other` is what the terminal or RTC routine answers; STRAY stands for a stray access. */
  function ReadFrom(img: Bytes, d: Descriptor, index: nat, n: int, other: Answer): Answer
    requires GoodInodes(img)
  {
    match d.driver
    case Directory => DirAnswer(img, index)
    case Regular => (
      match ReadFile(img, AsWord(d.inode), AsWord(d.position), AsWord(n))
      case Data(bytes) => Answer(|bytes|, bytes)
      case Bad => Answer(-1, [])
      case Stray => Answer(STRAY, []))
    case _ => other
  }

  function AsWord(n: int): Word { n % MODULUS }

  function ReadFd(img: Bytes, files: seq<Descriptor>, index: nat, fd: int, n: int, other: Answer): Reply
    requires GoodInodes(img) && |files| == FDT_SIZE
  {
    if fd >= FDT_SIZE || fd < 0 || fd == 1 || !files[fd].open then Reply(files, index, Answer(-1, []))
    else
      var d := files[fd];
      var a := ReadFrom(img, d, index, n, other);
      var index' := if d.driver.Directory? && index < Dentries(img) then index + 1 else index;
      if a.code < 0 then Reply(files, index', Answer(a.code, []))
      else Reply(files[fd := d.(position := d.position + a.code)], index', a)
  }

  function CloseFd(files: seq<Descriptor>, fd: int): (seq<Descriptor>, Answer)
    requires |files| == FDT_SIZE
  {
    if fd >= FDT_SIZE || fd <= 1 || !files[fd].open then (files, Answer(-1, []))
    else (files[fd := files[fd].(open := false)], Answer(0, []))
  }

  /** Closing a descriptor just opened succeeds and leaves the same slots open; the slot it took was the lowest
      closed one, never 0 or 1 of an initialised table. */
  lemma CloseUndoesOpen(img: Bytes, files: seq<Descriptor>, index: nat, name: Bytes)
    requires Sized(img) && |files| == FDT_SIZE && files[0].open && files[1].open
    ensures var open := OpenFile(img, files, index, name);
            var files1, a := open.files, open.answer;
            var (files2, b) := CloseFd(files1, a.code);
            && (a.code == -1 ==> files1 == files)
            && (a.code != -1 ==>
                  && 2 <= a.code < FDT_SIZE && !files[a.code].open && files1[a.code].open && b.code == 0
                  && (forall k :: 0 <= k < a.code ==> files[k].open)
                  && (forall k :: 0 <= k < FDT_SIZE ==> files2[k].open == files[k].open)
                  && (forall k :: 0 <= k < FDT_SIZE && k != a.code ==> files2[k] == files[k]))
  {
  }

  datatype Call =
    | Start                                      // pcb_init for a new process in this slot
    | OpenCall(name: Bytes)
    | ReadCall(fd: int, n: int, other: Answer)
    | CloseCall(fd: int)

  /** All tables, which slots were ever initialised, the bytes each descriptor has returned since its open, and
      current_dir_read_index. */
  datatype World = World(tables: seq<seq<Descriptor>>, started: seq<bool>, got: seq<seq<Bytes>>, index: nat)

  predicate Shaped(w: World) {
    && |w.tables| == |w.started| == |w.got| == MAX_PID
    && (forall p :: 0 <= p < MAX_PID ==> |w.tables[p]| == |w.got[p]| == FDT_SIZE)
  }

  /** A size as the C code passes it. */
  predicate IsSize(n: int) { -0x8000_0000 <= n < 0x8000_0000 }

  /** Only initialised processes make calls. */
  predicate Allowed(w: World, p: int, c: Call)
    requires Shaped(w)
  {
    && 0 <= p < MAX_PID
    && (c.Start? || w.started[p])
    && (c.ReadCall? ==> IsSize(c.n) && c.other.code >= -1)
  }

  function ReplyIn(img: Bytes, files: seq<Descriptor>, index: nat, c: Call): Reply
    requires GoodInodes(img) && |files| == FDT_SIZE
  {
    match c
    case Start => Reply(InitFiles(files), index, Answer(0, []))
    case OpenCall(name) => OpenFile(img, files, index, name)
    case ReadCall(fd, n, other) => ReadFd(img, files, index, fd, n, other)
    case CloseCall(fd) => var (files', a) := CloseFd(files, fd); Reply(files', index, a)
  }

  function ReplyTo(img: Bytes, w: World, p: int, c: Call): Reply
    requires GoodInodes(img) && Shaped(w) && Allowed(w, p, c)
  {
    ReplyIn(img, w.tables[p], w.index, c)
  }

  function Do(img: Bytes, w: World, p: int, c: Call): World
    requires GoodInodes(img) && Shaped(w) && Allowed(w, p, c)
  {
    var reply := ReplyTo(img, w, p, c);
    var a, got := reply.answer, w.got[p];
    var got' := if c.OpenCall? && 0 <= a.code < FDT_SIZE then got[a.code := []]
                else if c.ReadCall? && a.code >= 0 && 0 <= c.fd < FDT_SIZE then got[c.fd := got[c.fd] + a.bytes]
                else got;
    World(w.tables[p := reply.files], w.started[p := true], w.got[p := got'], reply.index)
  }

  /** A regular descriptor has returned exactly the file's bytes up to its position. */
  predicate Faithful(img: Bytes, d: Descriptor, got: Bytes)
    requires GoodInodes(img)
  {
    d.open && d.driver == Regular ==>
      && 0 <= d.inode < Inodes(img)
      && 0 <= d.position <= Length(img, d.inode)
      && got == Flat(img, d.inode)[..d.position]
  }

  predicate Inv(img: Bytes, w: World)
    requires GoodInodes(img)
  {
    && Shaped(w) && w.index <= Dentries(img)
    && (forall p :: 0 <= p < MAX_PID && w.started[p] ==> TableOk(img, w.tables[p], w.got[p]))
  }

  predicate TableOk(img: Bytes, files: seq<Descriptor>, got: seq<Bytes>)
    requires GoodInodes(img) && |files| == |got| == FDT_SIZE
  {
    && files[0].open && files[0].driver == Stdin && files[1].open && files[1].driver == Stdout
    && (forall fd :: 0 <= fd < FDT_SIZE ==> Faithful(img, files[fd], got[fd]))
  }

  /** A read on a faithful regular descriptor returns the next bytes of its file, as many as asked for or left. */
  lemma ReadIsNext(img: Bytes, d: Descriptor, got: Bytes, index: nat, n: int, other: Answer)
    requires GoodInodes(img) && Faithful(img, d, got) && d.open && d.driver == Regular && 0 <= n < 0x8000_0000
    ensures var file := Flat(img, d.inode);
            var a := ReadFrom(img, d, index, n, other);
            && a.code == |a.bytes| == Min(n, |file| - d.position)
            && got + a.bytes == file[..d.position + a.code]
            && (n > 0 ==> (a.code == 0 <==> got == file))
  {
    assert GoodInode(img, d.inode);
    assert AsWord(d.inode) == d.inode && AsWord(d.position) == d.position && AsWord(n) == n;
    SaneReads(img, d.inode, d.position, n);
    NextPiece(Flat(img, d.inode), d.position, n);
  }

  /** Whatever the size, negative ones included, the bytes are the next ones of the file. */
  lemma ReadGoesOn(img: Bytes, d: Descriptor, got: Bytes, index: nat, n: int, other: Answer)
    requires GoodInodes(img) && Faithful(img, d, got) && d.open && d.driver == Regular && IsSize(n)
    ensures var a := ReadFrom(img, d, index, n, other);
            && a.code == |a.bytes| <= Length(img, d.inode) - d.position
            && got + a.bytes == Flat(img, d.inode)[..d.position + a.code]
  {
    assert GoodInode(img, d.inode);
    assert AsWord(d.inode) == d.inode && AsWord(d.position) == d.position;
    var rest := ReadInside(img, d.inode, d.position, AsWord(n));
    var file := Flat(img, d.inode);
    assert ReadFrom(img, d, index, n, other) == Answer(rest, file[d.position..d.position + rest]);
    SlicesJoin(file, d.position, rest);
  }

  lemma SlicesJoin(file: Bytes, pos: int, n: int)
    requires 0 <= pos && 0 <= n && pos + n <= |file|
    ensures file[..pos] + file[pos..pos + n] == file[..pos + n]
  {
  }

  /** A read from a position inside the file, for any 32-bit length. */
  lemma ReadInside(img: Bytes, ino: Word, position: Word, length: Word) returns (rest: int)
    requires GoodInodes(img) && ino < Inodes(img) && position <= Length(img, ino)
    ensures 0 <= rest <= Length(img, ino) - position
    ensures ReadFile(img, ino, position, length) == Data(Flat(img, ino)[position..position + rest])
  {
    assert GoodInode(img, ino);
    rest := Remaining(Length(img, ino), position, length);
    if rest <= 0 { return 0; }
    RemainingIsRest(Length(img, ino), position, length);
  }

  lemma NextPiece(file: Bytes, pos: int, n: int)
    requires 0 <= pos <= |file| && 0 <= n
    ensures var piece := Slice(file, pos, n);
            && |piece| == Min(n, |file| - pos)
            && file[..pos] + piece == file[..pos + |piece|]
            && (n > 0 ==> (|piece| == 0 <==> file[..pos] == file))
  {
    if |Slice(file, pos, n)| == 0 && n > 0 {
      assert file[..|file|] == file;
    }
  }

  lemma CallKeepsTable(img: Bytes, w: World, p: int, c: Call)
    requires WellFormed(img) && Inv(img, w) && Allowed(w, p, c)
    ensures TableOk(img, Do(img, w, p, c).tables[p], Do(img, w, p, c).got[p])
  {
    var files := w.tables[p];
    if c.ReadCall? && 0 <= c.fd < FDT_SIZE && c.fd != 1 && files[c.fd].open && files[c.fd].driver == Regular {
      assert Faithful(img, files[c.fd], w.got[p][c.fd]);
      ReadGoesOn(img, files[c.fd], w.got[p][c.fd], w.index, c.n, c.other);
    }
    forall fd | 0 <= fd < FDT_SIZE ensures Faithful(img, Do(img, w, p, c).tables[p][fd], Do(img, w, p, c).got[p][fd]) {
      if !c.Start? { assert Faithful(img, files[fd], w.got[p][fd]); }
    }
  }

  lemma CallKeepsInv(img: Bytes, w: World, p: int, c: Call)
    requires WellFormed(img) && Inv(img, w) && Allowed(w, p, c)
    ensures Inv(img, Do(img, w, p, c))
  {
    CallKeepsTable(img, w, p, c);
    var w' := Do(img, w, p, c);
    forall q | 0 <= q < MAX_PID && w'.started[q] ensures TableOk(img, w'.tables[q], w'.got[q]) {
      if q != p { assert w.started[q]; }
    }
  }

  ghost predicate IsRun(img: Bytes, w: World, calls: seq<(int, Call)>, w': World)
    requires GoodInodes(img)
    decreases |calls|
  {
    if calls == [] then w' == w
    else Shaped(w) ==> && Allowed(w, calls[0].0, calls[0].1)
                       && IsRun(img, Do(img, w, calls[0].0, calls[0].1), calls[1..], w')
  }

  /** Main result: after any interleaving of calls by any processes, what each descriptor has returned since
      its open is a prefix of its file, and descriptors 0 and 1 are still the terminal. */
  lemma {:induction false} RunKeepsInv(img: Bytes, w: World, calls: seq<(int, Call)>, w': World)
    requires WellFormed(img) && Inv(img, w) && IsRun(img, w, calls, w')
    ensures Inv(img, w')
    decreases |calls|
  {
    if calls != [] {
      CallKeepsInv(img, w, calls[0].0, calls[0].1);
      RunKeepsInv(img, Do(img, w, calls[0].0, calls[0].1), calls[1..], w');
    }
  }

  /** A descriptor never changes under calls on other descriptors or by other processes. */
  lemma OthersUntouched(img: Bytes, w: World, p: int, c: Call, q: int, fd: int)
    requires GoodInodes(img) && Shaped(w) && Allowed(w, p, c) && 0 <= q < MAX_PID && 0 <= fd < FDT_SIZE
    requires q != p || (match c
                        case Start => false
                        case OpenCall(_) => w.tables[p][fd].open
                        case ReadCall(f, _, _) => f != fd
                        case CloseCall(f) => f != fd)
    ensures Do(img, w, p, c).tables[q][fd] == w.tables[q][fd]
    ensures Do(img, w, p, c).got[q][fd] == w.got[q][fd]
  {
  }

  function WithFiles(s: State, files: seq<Descriptor>): State
    requires Shape(s) && s.current != NONE
  {
    s.(pcbs := s.pcbs[s.current := s.pcbs[s.current].(files := files)])
  }

  /** File calls never disturb the process forest. */
  lemma FilesFrame(s: State, m: Machine, files: seq<Descriptor>)
    requires Refines(s, m) && s.current != NONE && |files| == FDT_SIZE
    ensures Refines(WithFiles(s, files), m)
  {
    var s' := WithFiles(s, files);
    forall t | 0 <= t < TERMINALS ensures StackHolds(s', m.stacks[t], t) {
      assert StackHolds(s, m.stacks[t], t);
      forall i | 0 <= i < |m.stacks[t]| ensures Linked(s', m.stacks[t], t, i) { assert Linked(s, m.stacks[t], t, i); }
    }
    forall p | 0 <= p < MAX_PID ensures Placed(s', m, p) { assert Placed(s, m, p); }
  }

  /** Process steps touch a descriptor table only to initialise it for the pid they take. */
  lemma StepFiles(s: State, step: Step, p: int)
    requires Shape(s) && Enabled(s, step) && Defined(s, step) && 0 <= p < MAX_PID
    ensures var s' := Apply(s, step);
            |s'.pcbs| == |s'.status| == MAX_PID &&
            s'.pcbs[p].files == if !s.status[p] && s'.status[p] then InitFiles(s.pcbs[p].files) else s.pcbs[p].files
  {
    match step {
      case Boot(probe) => StartFiles(s, probe, 0, true, p);
      case Execute(probe) => StartFiles(s, probe, s.pcbs[s.current].terminal, false, p);
      case Spawn(t, probe) =>
        StartFiles(s.(view := SetDisplay(s.view, t), launched := s.launched[t := true]), probe, t, true, p);
      case _ =>
    }
  }

  lemma StartFiles(s: State, probe: Probe, t: int, isTerminal: bool, p: int)
    requires Shape(s) && (!isTerminal ==> s.current != NONE) && 0 <= p < MAX_PID
    ensures var s' := ExecuteOn(s, probe, t, isTerminal);
            |s'.pcbs| == |s'.status| == MAX_PID &&
            s'.pcbs[p].files == if !s.status[p] && s'.status[p] then InitFiles(s.pcbs[p].files) else s.pcbs[p].files
  {
  }

  method FindSlot(files: seq<Descriptor>) returns (i: int)
    requires |files| == FDT_SIZE
    ensures i == LowestClosed(files)
  {
    i := 0;
    while i < FDT_SIZE
      invariant 0 <= i <= FDT_SIZE && LowestClosed(files) == LowestClosed(files, i)
    {
      if !files[i].open { break; }
      i := i + 1;
    }
  }

  /** The chain of type tests; a well-formed image has no other type. */
  method PickDriver(fileType: int, stale: Driver) returns (driver: Driver)
    ensures driver == DriverFor(fileType, stale)
  {
    driver := stale;
    if fileType == 0 {
      driver := Rtc;
    } else if fileType == 2 {
      driver := Regular;
    } else if fileType == 1 {
      driver := Driver.Directory;
    }
  }

  /** open on one descriptor table */
  method OpenIn(stream: Stream, files: seq<Descriptor>, name: Bytes) returns (files': seq<Descriptor>, fd: int)
    requires WellFormed(stream.img) && NUL !in name && |files| == FDT_SIZE
    modifies stream
    ensures |files'| == FDT_SIZE
    ensures Reply(files', stream.index, Answer(fd, [])) == OpenFile(stream.img, files, old(stream.index), name)
  {
    var temp := ReadDentryByName(stream.img, name);
    if temp.None? { return files, -1; }
    var i := FindSlot(files);
    if i == FDT_SIZE { return files, -1; }
    var driver := PickDriver(temp.value.fileType, files[i].driver);
    if temp.value.fileType == 1 { stream.Open(); }
    return files[i := Descriptor(driver, temp.value.inode, 0, true)], i;
  }

  method SetFiles(k: Core, files: seq<Descriptor>)
    requires k.Valid() && k.current != NONE && |files| == FDT_SIZE
    modifies k.pcbs
    ensures k.Valid() && k.View() == WithFiles(old(k.View()), files)
  {
    k.pcbs[k.current] := k.pcbs[k.current].(files := files);
  }

  /** open */
  method SysOpen(k: Core, stream: Stream, name: Bytes) returns (fd: int)
    requires k.Valid() && k.current != NONE && WellFormed(stream.img) && NUL !in name
    modifies k.pcbs, stream
    ensures k.Valid()
    ensures var s := old(k.View());
            var reply := OpenFile(stream.img, s.pcbs[s.current].files, old(stream.index), name);
            k.View() == WithFiles(s, reply.files) && stream.index == reply.index && fd == reply.answer.code
  {
    var files;
    files, fd := OpenIn(stream, k.pcbs[k.current].files, name);
    SetFiles(k, files);
  }

  /** A descriptor that lies inside its file; `Inv` gives it for every open one. */
  predicate InFile(img: Bytes, d: Descriptor)
    requires GoodInodes(img)
  {
    d.driver == Regular ==> 0 <= d.inode < Inodes(img) && 0 <= d.position <= Length(img, d.inode)
  }

  /** The model knows the bytes that reading this descriptor stores. */
  predicate Stores(d: Descriptor) { d.driver.Regular? || d.driver.Directory? }

  /** The driver's part of a read: filesys_read and dir_read store into the buffer, whose mapped memory can take the
      answer. */
  method ReadDriver(stream: Stream, d: Descriptor, n: int, buf: array<Byte>, other: Answer) returns (code: int)
    requires GoodInodes(stream.img) && stream.index <= Dentries(stream.img) && buf.Length > NAME
    requires Stores(d) ==> buf.Length >= |ReadFrom(stream.img, d, stream.index, n, other).bytes|
    modifies stream, buf
    ensures var a := ReadFrom(stream.img, d, old(stream.index), n, other);
            && code == a.code && stream.index <= Dentries(stream.img)
            && stream.index == old(stream.index) +
                 (if d.driver.Directory? && old(stream.index) < Dentries(stream.img) then 1 else 0)
            && (Stores(d) && code >= 0 ==> code <= buf.Length && buf[..code] == a.bytes)
  {
    if d.driver == Regular {
      code := ReadData(stream.img, AsWord(d.inode), AsWord(d.position), AsWord(n), buf);
    } else if d.driver.Directory? {
      code := stream.Read(buf);
    } else {
      code := other.code;
    }
  }

  /** read, for a buffer that can take the answer */
  method SysRead(k: Core, stream: Stream, fd: int, buf: array<Byte>, n: int, other: Answer) returns (code: int)
    requires k.Valid() && k.current != NONE && GoodInodes(stream.img) && stream.index <= Dentries(stream.img)
    requires buf != k.video.mem && buf.Length > NAME
    requires 0 <= fd < FDT_SIZE ==>
               var d := k.pcbs[k.current].files[fd];
               Stores(d) ==> buf.Length >= |ReadFrom(stream.img, d, stream.index, n, other).bytes|
    modifies k.pcbs, stream, buf
    ensures k.Valid() && stream.index <= Dentries(stream.img)
    ensures var s := old(k.View());
            var reply := ReadFd(stream.img, s.pcbs[s.current].files, old(stream.index), fd, n, other);
            && k.View() == WithFiles(s, reply.files) && stream.index == reply.index && code == reply.answer.code
            && (0 <= fd < FDT_SIZE && Stores(s.pcbs[s.current].files[fd]) && code >= 0 ==>
                  code <= buf.Length && buf[..code] == reply.answer.bytes)
  {
    var files := k.pcbs[k.current].files;
    if fd >= FDT_SIZE || fd < 0 || fd == 1 { return -1; }
    if !files[fd].open { return -1; }
    var d := files[fd];
    code := ReadDriver(stream, d, n, buf, other);
    if code < 0 { return; }
    SetFiles(k, files[fd := d.(position := d.position + code)]);
  }

  /** close */
  method SysClose(k: Core, fd: int) returns (code: int)
    requires k.Valid() && k.current != NONE
    modifies k.pcbs
    ensures k.Valid()
    ensures var s := old(k.View());
            var (files, a) := CloseFd(s.pcbs[s.current].files, fd);
            k.View() == WithFiles(s, files) && code == a.code
  {
    var files := k.pcbs[k.current].files;
    if fd >= FDT_SIZE || fd <= 1 || !files[fd].open { return -1; }
    SetFiles(k, files[fd := files[fd].(open := false)]);
    return 0;
  }
}
