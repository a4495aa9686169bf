/** What programs can rely on from open, read and close, in terms of the names they opened: over any interleaving of
    calls, whatever tables earlier processes left behind. */
module OpenFiles {
  import opened Words
  import opened FileSystem
  import opened Directory
  import opened Descriptors
  import opened Processes
  import opened FileCalls
  import opened Packing

  /** The name each descriptor of each process was opened under, as the program knows it from its own calls. */
  type Record = seq<seq<Option<Bytes>>>

  function Key(name: Bytes): Bytes { if |name| <= 32 then name else name[..32] }

  /** The first entry whose name is the first 32 characters of this one. */
  predicate IsEntry(img: Bytes, name: Bytes, i: int)
    requires Sized(img)
  {
    0 <= i < Dentries(img) && Names(img)[i] == Key(name) && forall j :: 0 <= j < i ==> Names(img)[j] != Key(name)
  }

  ghost predicate Exists(img: Bytes, name: Bytes)
    requires Sized(img)
  {
    exists i :: IsEntry(img, name, i)
  }

  lemma FoundIff(img: Bytes, name: Bytes, i: int)
    requires Sized(img)
    ensures IsEntry(img, name, i) <==> FirstNamed(img, name) == i && i >= 0
    ensures Exists(img, name) <==> FirstNamed(img, name) >= 0
  {
    var e := FirstNamed(img, name);
    if e >= 0 { assert IsEntry(img, name, e); }
  }

  function Noted(img: Bytes, w: World, p: int, c: Call, record: Record): Record
    requires GoodInodes(img) && Shaped(w) && Allowed(w, p, c) && |record| == MAX_PID
    requires forall q :: 0 <= q < MAX_PID ==> |record[q]| == FDT_SIZE
  {
    var code := ReplyTo(img, w, p, c).answer.code;
    match c
    case Start => record[p := seq(FDT_SIZE, _ => None)]
    case OpenCall(name) => if 0 <= code < FDT_SIZE then record[p := record[p][code := Some(name)]] else record
    case CloseCall(fd) => if code == 0 && 0 <= fd < FDT_SIZE then record[p := record[p][fd := None]] else record
    case ReadCall(_, _, _) => record
  }

  /** A descriptor opened on entry i: a regular entry has returned the first bytes of its own file. */
  predicate Serves(img: Bytes, d: Descriptor, got: Bytes, i: int)
    requires WellFormed(img) && 0 <= i < Dentries(img)
  {
    && d.open
    && (FileType(img, i) == 2 ==>
          var file := Flat(img, InodeOf(img, i));
          && d.driver == Regular && d.inode == InodeOf(img, i)
          && d.position == |got| <= |file| && got == file[..|got|])
    && (FileType(img, i) == 1 ==> d.driver == Driver.Directory)
    && (FileType(img, i) == 0 ==> d.driver == Rtc)
  }

  /** A descriptor is open exactly if the process has opened it and not closed it since, and then serves its entry. */
  ghost predicate KeepsSlot(img: Bytes, d: Descriptor, got: Bytes, name: Option<Bytes>)
    requires WellFormed(img)
  {
    && (d.open <==> name.Some?)
    && (name.Some? ==> Exists(img, name.value))
    && (name.Some? ==> forall i :: IsEntry(img, name.value, i) ==> Serves(img, d, got, i))
  }

  ghost predicate Keeps(img: Bytes, files: seq<Descriptor>, got: seq<Bytes>, names: seq<Option<Bytes>>)
    requires WellFormed(img) && |files| == |got| == |names| == FDT_SIZE
  {
    forall fd :: 2 <= fd < FDT_SIZE ==> KeepsSlot(img, files[fd], got[fd], names[fd])
  }

  ghost predicate Known(img: Bytes, w: World, record: Record)
    requires WellFormed(img)
  {
    && Inv(img, w) && |record| == MAX_PID
    && (forall p :: 0 <= p < MAX_PID ==> |record[p]| == FDT_SIZE)
    && (forall p :: 0 <= p < MAX_PID && w.started[p] ==> Keeps(img, w.tables[p], w.got[p], record[p]))
  }

  /** Before any process has started everything is known. */
  lemma NothingStarted(img: Bytes, w: World, record: Record)
    requires WellFormed(img) && Inv(img, w) && |record| == MAX_PID
    requires forall p :: 0 <= p < MAX_PID ==> |record[p]| == FDT_SIZE && !w.started[p]
    ensures Known(img, w, record)
  {
  }

  /** A descriptor just opened under a name serves its entry from the start. */
  lemma OpenedSlot(img: Bytes, name: Bytes, stale: Driver)
    requires WellFormed(img) && FirstNamed(img, name) >= 0
    ensures var e := FirstNamed(img, name);
            KeepsSlot(img, Descriptor(DriverFor(FileType(img, e), stale), InodeOf(img, e), 0, true), [], Some(name))
  {
    var e := FirstNamed(img, name);
    FoundIff(img, name, e);
    forall i | IsEntry(img, name, i) ensures i == e { FoundIff(img, name, i); }
    assert InodeOf(img, e) < Inodes(img) && FileType(img, e) <= 2;
    assert Flat(img, InodeOf(img, e))[..0] == [];
  }

  lemma OpenKeeps(img: Bytes, w: World, p: int, c: Call, record: Record)
    requires WellFormed(img) && Known(img, w, record) && Allowed(w, p, c) && c.OpenCall?
    ensures Keeps(img, Do(img, w, p, c).tables[p], Do(img, w, p, c).got[p], Noted(img, w, p, c, record)[p])
  {
    hide KeepsSlot, DriverFor;
    var e, fd := FirstNamed(img, c.name), LowestClosed(w.tables[p]);
    assert TableOk(img, w.tables[p], w.got[p]);
    if e >= 0 && fd < FDT_SIZE { OpenedSlot(img, c.name, w.tables[p][fd].driver); }
  }

  /** A read goes on where the last one ended. */
  lemma ReadSlot(img: Bytes, d: Descriptor, got: Bytes, name: Option<Bytes>, index: nat, n: int, other: Answer)
    requires WellFormed(img) && KeepsSlot(img, d, got, name) && d.open && IsSize(n) && Faithful(img, d, got)
    ensures var a := ReadFrom(img, d, index, n, other);
            a.code >= 0 ==> KeepsSlot(img, d.(position := d.position + a.code), got + a.bytes, name)
  {
    if d.driver == Regular {
      ReadGoesOn(img, d, got, index, n, other);
      var a := ReadFrom(img, d, index, n, other);
      assert |got + a.bytes| == |got| + a.code;
    }
  }

  lemma ReadKeeps(img: Bytes, w: World, p: int, c: Call, record: Record)
    requires WellFormed(img) && Known(img, w, record) && Allowed(w, p, c) && c.ReadCall?
    ensures Keeps(img, Do(img, w, p, c).tables[p], Do(img, w, p, c).got[p], record[p])
  {
    hide KeepsSlot, ReadFrom;
    var fd := c.fd;
    if 2 <= fd < FDT_SIZE && w.tables[p][fd].open {
      assert TableOk(img, w.tables[p], w.got[p]);
      assert Faithful(img, w.tables[p][fd], w.got[p][fd]);
      ReadSlot(img, w.tables[p][fd], w.got[p][fd], record[p][fd], w.index, c.n, c.other);
    }
  }

  /** Whatever the last owner of the pid left behind, a process starts with descriptors 2 to 7 closed. */
  lemma StartKeeps(img: Bytes, files: seq<Descriptor>, got: seq<Bytes>)
    requires WellFormed(img) && |files| == |got| == FDT_SIZE
    ensures Keeps(img, InitFiles(files), got, seq(FDT_SIZE, _ => None))
  {
  }

  lemma CloseKeeps(img: Bytes, w: World, p: int, c: Call, record: Record)
    requires WellFormed(img) && Known(img, w, record) && Allowed(w, p, c) && c.CloseCall?
    ensures Keeps(img, Do(img, w, p, c).tables[p], Do(img, w, p, c).got[p], Noted(img, w, p, c, record)[p])
  {
  }

  lemma CallKeepsKnown(img: Bytes, w: World, p: int, c: Call, record: Record)
    requires WellFormed(img) && Known(img, w, record) && Allowed(w, p, c)
    ensures Known(img, Do(img, w, p, c), Noted(img, w, p, c, record))
  {
    hide Keeps, Inv, ReplyIn, InitFiles;
    CallKeepsInv(img, w, p, c);
    StepKept(img, w, p, c, record);
    SizesKept(img, w, p, c, record);
  }

  lemma SizesKept(img: Bytes, w: World, p: int, c: Call, record: Record)
    requires WellFormed(img) && Known(img, w, record) && Allowed(w, p, c)
    ensures var record' := Noted(img, w, p, c, record);
            |record'| == MAX_PID && (forall q :: 0 <= q < MAX_PID ==> |record'[q]| == FDT_SIZE)
    ensures var w', record' := Do(img, w, p, c), Noted(img, w, p, c, record);
            forall q :: 0 <= q < MAX_PID && q != p ==>
              && w'.started[q] == w.started[q] && w'.tables[q] == w.tables[q] && w'.got[q] == w.got[q]
              && record'[q] == record[q]
  {
    hide Keeps, ReplyIn;
  }

  lemma StepKept(img: Bytes, w: World, p: int, c: Call, record: Record)
    requires WellFormed(img) && Known(img, w, record) && Allowed(w, p, c)
    ensures Keeps(img, Do(img, w, p, c).tables[p], Do(img, w, p, c).got[p], Noted(img, w, p, c, record)[p])
  {
    hide Keeps;
    match c {
      case Start => StartKeeps(img, w.tables[p], w.got[p]);
      case OpenCall(_) => OpenKeeps(img, w, p, c, record);
      case ReadCall(_, _, _) => ReadKeeps(img, w, p, c, record);
      case CloseCall(_) => CloseKeeps(img, w, p, c, record);
    }
  }

  ghost function RecordAfter(img: Bytes, w: World, calls: seq<(int, Call)>, record: Record): Record
    requires WellFormed(img)
    decreases |calls|
  {
    if calls == [] || !Known(img, w, record) || !Allowed(w, calls[0].0, calls[0].1) then record
    else
      var (p, c) := calls[0];
      RecordAfter(img, Do(img, w, p, c), calls[1..], Noted(img, w, p, c, record))
  }

  /** Main result: over any interleaving of calls by any processes, a descriptor from 2 on is open exactly if its
      process opened it and has not closed it since, and what it has returned since is the beginning of the file of the
      first entry with the name it was opened under. */
  lemma {:induction false} RunIsKnown(img: Bytes, w: World, calls: seq<(int, Call)>, w': World, record: Record)
    requires WellFormed(img) && Known(img, w, record) && IsRun(img, w, calls, w')
    ensures Known(img, w', RecordAfter(img, w, calls, record))
    decreases |calls|
  {
    if calls != [] {
      var (p, c) := calls[0];
      CallKeepsKnown(img, w, p, c, record);
      RunIsKnown(img, Do(img, w, p, c), calls[1..], w', Noted(img, w, p, c, record));
    }
  }

  /** What read answers on a descriptor opened under a name: the next bytes of a regular file, as many as asked for or
      left, the name at the shared directory index, or what the RTC says. */
  lemma ReadAnswers(img: Bytes, w: World, record: Record, p: int, fd: int, n: int, other: Answer, i: int)
    requires WellFormed(img) && Known(img, w, record) && Allowed(w, p, ReadCall(fd, n, other)) && 2 <= fd < FDT_SIZE
    requires record[p][fd].Some? && IsEntry(img, record[p][fd].value, i)
    ensures var a, got := ReplyTo(img, w, p, ReadCall(fd, n, other)).answer, w.got[p][fd];
            && (FileType(img, i) == 2 && n >= 0 ==>
                  var file := Flat(img, InodeOf(img, i));
                  var end := if |got| + n <= |file| then |got| + n else |file|;
                  |got| <= end && a == Answer(end - |got|, file[|got|..end]))
            && (FileType(img, i) == 1 ==>
                  a == if w.index < Dentries(img) then Answer(|Names(img)[w.index]|, Names(img)[w.index])
                       else Answer(0, []))
            && (FileType(img, i) == 0 && other.code >= 0 ==> a == other)
  {
    assert KeepsSlot(img, w.tables[p][fd], w.got[p][fd], record[p][fd]);
    assert Serves(img, w.tables[p][fd], w.got[p][fd], i);
    if FileType(img, i) == 2 && n >= 0 { RegularAnswers(img, w.tables[p][fd], w.got[p][fd], w.index, n, other, i); }
  }

  lemma RegularAnswers(img: Bytes, d: Descriptor, got: Bytes, index: nat, n: int, other: Answer, i: int)
    requires WellFormed(img) && 0 <= i < Dentries(img) && Serves(img, d, got, i) && FileType(img, i) == 2
    requires 0 <= n < 0x8000_0000
    ensures var file := Flat(img, InodeOf(img, i));
            var end := if |got| + n <= |file| then |got| + n else |file|;
            |got| <= end && ReadFrom(img, d, index, n, other) == Answer(end - |got|, file[|got|..end])
  {
    assert InodeOf(img, i) < Inodes(img);
    assert GoodInode(img, d.inode);
    assert AsWord(d.inode) == d.inode && AsWord(d.position) == d.position && AsWord(n) == n;
    SaneReads(img, d.inode, d.position, n);
  }

  /** On a descriptor the process has not opened, on 1 and outside the table read returns -1; close succeeds exactly on
      what the process has opened. */
  lemma OtherAnswers(img: Bytes, w: World, record: Record, p: int, fd: int, n: int, other: Answer)
    requires WellFormed(img) && Known(img, w, record) && Allowed(w, p, ReadCall(fd, n, other))
    ensures fd < 0 || fd == 1 || fd >= FDT_SIZE || (fd >= 2 && record[p][fd].None?) ==>
              ReplyTo(img, w, p, ReadCall(fd, n, other)).answer == Answer(-1, [])
    ensures ReplyTo(img, w, p, CloseCall(fd)).answer.code == 0 <==> 2 <= fd < FDT_SIZE && record[p][fd].Some?
    ensures ReplyTo(img, w, p, CloseCall(fd)).answer.code in {0, -1}
  {
    if 2 <= fd < FDT_SIZE { assert KeepsSlot(img, w.tables[p][fd], w.got[p][fd], record[p][fd]); }
  }

  /** open returns the lowest descriptor from 2 on that the process does not have open, if the name exists and there is
      one, and -1 otherwise. */
  lemma OpenAnswers(img: Bytes, w: World, record: Record, p: int, name: Bytes)
    requires WellFormed(img) && Known(img, w, record) && Allowed(w, p, OpenCall(name))
    ensures var code := ReplyTo(img, w, p, OpenCall(name)).answer.code;
            && (code == -1 || 2 <= code < FDT_SIZE)
            && (code == -1 <==> !Exists(img, name) || forall fd :: 2 <= fd < FDT_SIZE ==> record[p][fd].Some?)
            && (code != -1 ==> record[p][code].None? && forall fd :: 2 <= fd < code ==> record[p][fd].Some?)
  {
    FoundIff(img, name, FirstNamed(img, name));
    assert TableOk(img, w.tables[p], w.got[p]);
    forall fd | 2 <= fd < FDT_SIZE ensures w.tables[p][fd].open <==> record[p][fd].Some? {
      assert KeepsSlot(img, w.tables[p][fd], w.got[p][fd], record[p][fd]);
    }
  }

  /** The first read after an open of a regular file starts at its beginning. */
  lemma OpenThenRead(img: Bytes, w: World, record: Record, p: int, name: Bytes, i: int, n: int, other: Answer)
    requires WellFormed(img) && Known(img, w, record) && Allowed(w, p, OpenCall(name))
    requires IsEntry(img, name, i) && FileType(img, i) == 2 && 0 <= n < 0x8000_0000 && other.code >= -1
    requires exists fd :: 2 <= fd < FDT_SIZE && record[p][fd].None?
    ensures var fd := ReplyTo(img, w, p, OpenCall(name)).answer.code;
            var w', file := Do(img, w, p, OpenCall(name)), Flat(img, InodeOf(img, i));
            && 2 <= fd < FDT_SIZE && Shaped(w') && Allowed(w', p, ReadCall(fd, n, other))
            && ReplyTo(img, w', p, ReadCall(fd, n, other)).answer ==
               if n <= |file| then Answer(n, file[..n]) else Answer(|file|, file)
  {
    var c := OpenCall(name);
    assert Exists(img, name);
    OpenAnswers(img, w, record, p, name);
    CallKeepsKnown(img, w, p, c, record);
    var w', fd := Do(img, w, p, c), ReplyTo(img, w, p, c).answer.code;
    ReadAnswers(img, w', Noted(img, w, p, c, record), p, fd, n, other, i);
    assert w'.got[p][fd] == [];
  }

  /** The process never closes anything and does not start again. */
  predicate OnlyOpens(calls: seq<(int, Call)>, p: int) {
    forall k :: 0 <= k < |calls| && calls[k].0 == p ==> calls[k].1.OpenCall? || calls[k].1.ReadCall?
  }

  /** The descriptors its successful opens return, in order. */
  ghost function OpenCodes(img: Bytes, w: World, calls: seq<(int, Call)>, p: int, record: Record): seq<int>
    requires WellFormed(img)
    decreases |calls|
  {
    if calls == [] || !Known(img, w, record) || !Allowed(w, calls[0].0, calls[0].1) then []
    else
      var (q, c) := calls[0];
      var code := ReplyTo(img, w, q, c).answer.code;
      (if q == p && c.OpenCall? && code != -1 then [code] else []) +
      OpenCodes(img, Do(img, w, q, c), calls[1..], p, Noted(img, w, q, c, record))
  }

  predicate Took(img: Bytes, w: World, q: int, c: Call, p: int)
    requires GoodInodes(img) && Shaped(w) && Allowed(w, q, c)
  {
    q == p && c.OpenCall? && ReplyTo(img, w, q, c).answer.code != -1
  }

  lemma NextOpened(img: Bytes, w: World, q: int, c: Call, p: int, record: Record, k: nat)
    requires WellFormed(img) && Known(img, w, record) && Allowed(w, q, c) && 0 <= p < MAX_PID
    requires q == p ==> c.OpenCall? || c.ReadCall?
    requires k <= FDT_SIZE - 2 && HasOpened(record[p], k)
    ensures Took(img, w, q, c, p) ==>
              && k < FDT_SIZE - 2 && ReplyTo(img, w, q, c).answer.code == 2 + k
              && HasOpened(Noted(img, w, q, c, record)[p], k + 1)
    ensures !Took(img, w, q, c, p) ==> HasOpened(Noted(img, w, q, c, record)[p], k)
  {
    hide Keeps, Inv, ReplyIn;
    if q == p && c.OpenCall? {
      OpenAnswers(img, w, record, p, c.name);
      assert k + 2 < FDT_SIZE ==> record[p][k + 2].None?;
    }
  }

  /** Main result: whatever an earlier owner of its pid left open, and whatever others do meanwhile, a process that has
      opened k descriptors since its start gets k + 2, k + 3, ... from its next successful opens. */
  lemma {:induction false} OpensAreNumbered(img: Bytes, w: World, calls: seq<(int, Call)>, w': World, p: int,
                                            record: Record, k: nat)
    requires WellFormed(img) && Known(img, w, record) && IsRun(img, w, calls, w') && OnlyOpens(calls, p)
    requires 0 <= p < MAX_PID && k <= FDT_SIZE - 2 && HasOpened(record[p], k)
    ensures Numbered(OpenCodes(img, w, calls, p, record), 2 + k)
    decreases |calls|
  {
    hide HasOpened, ReplyIn, Keeps, Noted, Do;
    if calls != [] {
      var (q, c) := calls[0];
      CallKeepsKnown(img, w, q, c, record);
      NextOpened(img, w, q, c, p, record, k);
      var k' := if Took(img, w, q, c, p) then k + 1 else k;
      OpensAreNumbered(img, Do(img, w, q, c), calls[1..], w', p, Noted(img, w, q, c, record), k');
    }
  }

  predicate Numbered(codes: seq<int>, first: int) { forall j :: 0 <= j < |codes| ==> codes[j] == first + j }

  /** Descriptors 2 to k + 1 are open, the others closed. */
  predicate HasOpened(names: seq<Option<Bytes>>, k: nat) {
    |names| == FDT_SIZE && forall fd :: 2 <= fd < FDT_SIZE ==> (names[fd].Some? <==> fd < k + 2)
  }

  /** A process that has just started has opened none. */
  lemma StartHasOpenedNone(img: Bytes, w: World, p: int, record: Record)
    requires WellFormed(img) && Known(img, w, record) && Allowed(w, p, Start)
    ensures HasOpened(Noted(img, w, p, Start, record)[p], 0)
  {
  }

  /** On a packed image the first read after an open of a regular file returns that file's own first bytes. */
  lemma PackedOpenThenRead(files: seq<File>, w: World, record: Record, p: int, i: nat, n: int, other: Answer)
    requires Packable(files) && i < |files| && files[i].kind == 2 && 0 <= n < 0x8000_0000 && other.code >= -1
    requires forall j :: 0 <= j < i ==> files[j].name != files[i].name
    requires WellFormed(Pack(files)) && Known(Pack(files), w, record) && Allowed(w, p, OpenCall(files[i].name))
    requires exists fd :: 2 <= fd < FDT_SIZE && record[p][fd].None?
    ensures var img, bytes := Pack(files), files[i].bytes;
            var fd := ReplyTo(img, w, p, OpenCall(files[i].name)).answer.code;
            var w' := Do(img, w, p, OpenCall(files[i].name));
            && 2 <= fd < FDT_SIZE && Shaped(w') && Allowed(w', p, ReadCall(fd, n, other))
            && ReplyTo(img, w', p, ReadCall(fd, n, other)).answer ==
               if n <= |bytes| then Answer(n, bytes[..n]) else Answer(|bytes|, bytes)
  {
    hide Pack, Known, ReplyIn;
    PackedIs(files);
    assert Key(files[i].name) == files[i].name;
    assert IsEntry(Pack(files), files[i].name, i);
    OpenThenRead(Pack(files), w, record, p, files[i].name, i, n, other);
  }
}
