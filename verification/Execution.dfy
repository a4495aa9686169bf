/** execute against the image: which files make it leak a pid, and which images never do. */
module Execution {
  import opened Words
  import opened Paging
  import opened Processes
  import opened FileSystem
  import opened Directory
  import opened Loader
  import opened CallStacks
  import opened Kernel
  import Forest
  import Images
  import opened Packing

  /** Loading writes through the page tables: once setup_task_page has run, the addresses from USER_PROGRAM_ADDR on
      reach the process's own frame, and the window is exactly as long as they do. */
  lemma WindowIsMapped(tables: Tables, pid: int, i: int)
    requires tables.Valid() && tables.Live() && tables.dir[USER_SPACE_START] == TaskPde(TaskFrame(pid))
    requires 0 <= pid < MAX_PID && 0 <= i <= WINDOW
    ensures var a := tables.Translate(USER_PROGRAM_ADDR + i, false);
            && (a.Physical? <==> i < WINDOW)
            && (i < WINDOW ==> InTaskFrame(a.address, pid) && a.address == TaskFrame(pid) * PAGE_SIZE + 0x48000 + i)
  {
    tables.TranslateLive(USER_PROGRAM_ADDR + i, false);
  }

  /** When execute of a command leaks a pid, and when it starts a process, in terms of the image. */
  lemma CommandLeaksIff(s: State, img: Bytes, cmd: Bytes, junk: Bytes, t: int, isTerminal: bool)
    requires Shape(s) && (isTerminal || s.current != NONE) && 0 <= t < TERMINALS
    requires GoodInodes(img) && |junk| >= HEADER
    ensures var probe, i, free := ProbeOf(img, cmd, junk), EntryOf(img, cmd), EmptyPid(s.status);
            var s', code := ExecuteOn(s, probe, t, isTerminal), ExecuteCode(s, probe);
            && (s' != s && code != 0 <==> free != NONE && i >= 0 && Dangerous(img, InodeOf(img, i), junk))
            && (code == 0 <==> && free != NONE && i >= 0 && InodeOf(img, i) < Inodes(img)
                               && Header(img, InodeOf(img, i), junk)[..4] == MAGIC
                               && Length(img, InodeOf(img, i)) <= WINDOW)
  {
    var probe, i := ProbeOf(img, cmd, junk), EntryOf(img, cmd);
    Forest.ExecuteLeaksIff(s, probe, t, isTerminal);
    CleanIff(img, cmd, junk);
    LoadsIff(img, cmd, junk);
  }

  /** An inode number that makes loading go wrong after the magic-number test. */
  predicate Dangerous(img: Bytes, ino: Word, junk: Bytes)
    requires GoodInodes(img) && |junk| >= HEADER
  {
    if ino >= Inodes(img) then junk[..4] == MAGIC else Oversized(img, ino)
  }

  /** Entry i is what some command names: no earlier entry has its name, which holds no space. */
  predicate Nameable(img: Bytes, i: int)
    requires Sized(img) && 0 <= i < Dentries(img)
  {
    FirstNamed(img, Name(img, i)) == i && SPACE !in Name(img, i)
  }

  /** Every entry a command can name has an inode, and none is an executable larger than the window. */
  predicate Safe(img: Bytes)
    requires GoodInodes(img)
  {
    forall i :: 0 <= i < Dentries(img) && Nameable(img, i) ==>
      InodeOf(img, i) < Inodes(img) && !Oversized(img, InodeOf(img, i))
  }

  /** No command, whatever the stack holds, goes wrong after a pid was taken. */
  ghost predicate AlwaysClean(img: Bytes)
    requires GoodInodes(img)
  {
    forall cmd: Bytes, junk: Bytes :: NUL !in cmd && |junk| >= HEADER ==> ProbeOf(img, cmd, junk).Clean()
  }

  lemma {:induction false} NoNulBefore(img: Bytes, d: int, k: int)
    requires 0 <= d && d + NAME <= |img| && 0 <= k <= NAME
    ensures forall a :: d + k <= a < d + NameLength(img, d, k) ==> img[a] != NUL
    decreases NAME - k
  {
    if k < NameLength(img, d, k) { NoNulBefore(img, d, k + 1); }
  }

  lemma NameHasNoNul(img: Bytes, i: int)
    requires Sized(img) && 0 <= i < Dentries(img)
    ensures NUL !in Name(img, i)
  {
    var name := Name(img, i);
    NoNulBefore(img, DentryAt(i), 0);
    assert forall j :: 0 <= j < |name| ==> name[j] != NUL;
  }

  lemma NoSpace(cmd: Bytes)
    requires SPACE !in cmd
    ensures FileName(cmd) == cmd
  {
    assert FirstSpace(cmd) == |cmd|;
  }

  /** A nameable entry's own name, given as a command, finds it. */
  lemma NameFinds(img: Bytes, i: int)
    requires Sized(img) && 0 <= i < Dentries(img) && Nameable(img, i)
    ensures NUL !in Name(img, i) && EntryOf(img, Name(img, i)) == i
  {
    NameHasNoNul(img, i);
    NoSpace(Name(img, i));
  }

  /** What a command finds is nameable. */
  lemma FoundIsNameable(img: Bytes, cmd: Bytes)
    requires Sized(img) && EntryOf(img, cmd) >= 0
    ensures Nameable(img, EntryOf(img, cmd))
  {
    var i, q := EntryOf(img, cmd), FileName(cmd);
    var name := Name(img, i);
    assert Names(img)[i] == name == Truncated(q);
    assert Truncated(name) == name;
    assert SPACE !in cmd[0..FirstSpace(cmd)];
    assert SPACE !in q;
    forall k | 0 <= k < |name| ensures name[k] != SPACE { assert name[k] == q[k] && q[k] in q; }
  }

  /** Exactly the safe images never make execute go wrong after it took a pid. */
  lemma SafeIff(img: Bytes)
    requires GoodInodes(img)
    ensures AlwaysClean(img) <==> Safe(img)
  {
    if Safe(img) {
      forall cmd: Bytes, junk: Bytes | NUL !in cmd && |junk| >= HEADER ensures ProbeOf(img, cmd, junk).Clean() {
        CleanIff(img, cmd, junk);
        if EntryOf(img, cmd) >= 0 { FoundIsNameable(img, cmd); }
      }
    }
    if AlwaysClean(img) {
      var junk := MAGIC + seq(HEADER - 4, _ => NUL);
      assert junk[..4] == MAGIC;
      forall i | 0 <= i < Dentries(img) && Nameable(img, i)
        ensures InodeOf(img, i) < Inodes(img) && !Oversized(img, InodeOf(img, i))
      {
        NameFinds(img, i);
        CleanIff(img, Name(img, i), junk);
        assert ProbeOf(img, Name(img, i), junk).Clean();
      }
    }
  }

  /** The file system's answers in a step come from this image. */
  ghost predicate Answers(img: Bytes, probe: Probe)
    requires GoodInodes(img)
  {
    exists cmd: Bytes, junk: Bytes :: NUL !in cmd && |junk| >= HEADER && probe == ProbeOf(img, cmd, junk)
  }

  ghost predicate FromImage(img: Bytes, step: Step)
    requires GoodInodes(img)
  {
    match step
    case Boot(probe) => Answers(img, probe)
    case Execute(probe) => Answers(img, probe)
    case Spawn(_, probe) => Answers(img, probe)
    case _ => true
  }

  lemma AnswersAreClean(img: Bytes, step: Step)
    requires GoodInodes(img) && Safe(img) && FromImage(img, step)
    ensures Loadable(step)
  {
    SafeIff(img);
  }

  /** Main result: on a safe image every run from power-on, whatever commands are executed, refines the three call
      stacks and keeps the forest and the mapping in order. */
  lemma ImageRun(img: Bytes, s: State, steps: seq<Step>, s': State) returns (m: Machine)
    requires GoodInodes(img) && Safe(img)
    requires Initial(s) && IsRun(s, steps, s') && forall i :: 0 <= i < |steps| ==> FromImage(img, steps[i])
    ensures IsAbstractRun(START, steps, m) && Refines(s', m)
    ensures Forest.WellFormed(s') && Forest.Agrees(s')
  {
    forall i | 0 <= i < |steps| ensures Loadable(steps[i]) { AnswersAreClean(img, steps[i]); }
    m := RunRefines(s, steps, s');
    Forest.ReachableIsWellFormed(s, steps, s');
    Forest.ReachableAgrees(s, steps, s');
  }

  /** Both ways to leak happen: on a dangling entry with a stale magic number, and, on a well-formed image, with an
      executable one byte too large. */
  lemma LeaksHappen(s: State, t: int, junk: Bytes)
    requires Shape(s) && EmptyPid(s.status) != NONE && 0 <= t < TERMINALS && |junk| >= HEADER && junk[..4] == MAGIC
    ensures var dangling, large := Images.Dangling(), Images.OneFile(WINDOW + 1);
            && Typed(dangling) && WellFormed(large)
            && ExecuteOn(s, ProbeOf(dangling, Images.NAMED_A, junk), t, true) != s
            && ExecuteCode(s, ProbeOf(dangling, Images.NAMED_A, junk)) == -1
            && ExecuteOn(s, ProbeOf(large, Images.NAMED_A, junk), t, true) != s
            && ExecuteCode(s, ProbeOf(large, Images.NAMED_A, junk)) == FAULT
  {
    Images.FailsOnStaleStack(junk);
    Images.FaultsOnWellFormedImage(junk);
    Forest.ExecuteLeaksIff(s, LoadFails, t, true);
    Forest.ExecuteLeaksIff(s, LoadFaults, t, true);
  }

  /** The window holds the whole file and old bytes after it, or as much of the file as fits. */
  ghost predicate Filled(img: Bytes, ino: int, before: Bytes, after: Bytes)
    requires GoodInodes(img)
  {
    && 0 <= ino < Inodes(img)
    && var file := Flat(img, ino);
       after == if |file| <= |before| then file + before[|file|..] else file[..|before|]
  }

  /** execute_with_terminal_num from the choice of a pid on. */
  method Commit(k: Core, img: Bytes, ino: Word, window: array<Byte>, t: int, isTerminal: bool) returns (code: int)
    requires k.Valid() && 0 <= t < TERMINALS && (!isTerminal ==> k.current != NONE)
    requires GoodInodes(img) && window.Length == WINDOW && window != k.video.mem
    modifies k, k.status, k.pcbs, k.video`active
    modifies k.video.tables.dir, k.video.tables.table, k.video.tables.userVideo, window
    ensures k.video.Valid() && k.video.Abs() == old(k.video.Abs())
    ensures k.View() == ExecuteOn(old(k.View()), LoadProbe(img, ino), t, isTerminal)
    ensures code == ExecuteCode(old(k.View()), LoadProbe(img, ino))
    ensures if code == -1 then window[..] == old(window[..]) else Filled(img, ino, old(window[..]), window[..])
  {
    var pid := k.GetEmptyPid();
    if pid == NONE { return -1; }
    k.TakePid(pid, t);
    if ino < Inodes(img) { LoadsWholeFile(img, ino); }
    ghost var claimed := k.View();
    code := LoadExecutable(img, ino, window);
    assert k.View() == claimed;
    if code != 0 { return; }
    k.EnterProcess(pid, t, isTerminal);
  }

  /** execute_with_terminal_num on an image: `window` is the memory at USER_PROGRAM_ADDR once the new page is mapped,
      `tempBuf` the uninitialised local buffer. */
  method ExecuteCommand(k: Core, img: Bytes, cmd: Bytes, tempBuf: array<Byte>, window: array<Byte>, t: int,
                        isTerminal: bool) returns (code: int)
    requires k.Valid() && 0 <= t < TERMINALS && (!isTerminal ==> k.current != NONE)
    requires Typed(img) && NUL !in cmd && tempBuf.Length >= HEADER && window.Length == WINDOW
    requires tempBuf != window && tempBuf != k.video.mem && window != k.video.mem
    modifies k, k.status, k.pcbs, k.video`active
    modifies k.video.tables.dir, k.video.tables.table, k.video.tables.userVideo, tempBuf, window
    ensures k.video.Valid() && k.video.Abs() == old(k.video.Abs())
    ensures var probe := ProbeOf(img, cmd, old(tempBuf[..]));
            k.View() == ExecuteOn(old(k.View()), probe, t, isTerminal) && code == ExecuteCode(old(k.View()), probe)
    ensures code == -1 ==> window[..] == old(window[..])
    ensures code != -1 ==>
              var i := EntryOf(img, cmd);
              i >= 0 && Filled(img, InodeOf(img, i), old(window[..]), window[..])
  {
    var found := FindExecutable(img, cmd, tempBuf);
    if found.None? { return -1; }
    code := Commit(k, img, found.value, window, t, isTerminal);
  }

  const SHELL: Bytes := [115, 104, 101, 108, 108]

  /** Alt-F1, Alt-F2 and Alt-F3: switch the display, and start a shell there the first time. */
  method AltFunctionKey(k: Core, img: Bytes, tempBuf: array<Byte>, window: array<Byte>, t: int)
    requires k.Valid() && 0 <= t < TERMINALS && Typed(img) && tempBuf.Length >= HEADER && window.Length == WINDOW
    requires tempBuf != window && tempBuf != k.video.mem && window != k.video.mem
    modifies k, k.status, k.pcbs, k.video, k.video.mem
    modifies k.video.tables.dir, k.video.tables.table, k.video.tables.userVideo, tempBuf, window
    ensures k.video.Valid() && k.video.Abs() == old(k.video.Abs())
    ensures k.View() == if t == 0 then old(k.View()).(view := SetDisplay(old(k.View()).view, t))
                        else SpawnShell(old(k.View()), t, ProbeOf(img, SHELL, old(tempBuf[..])))
  {
    ghost var junk := tempBuf[..];
    k.video.SetDisplay(t);
    if t != 0 && !k.launched[t] {
      var pid := k.GetEmptyPid();
      if pid == NONE { return; }
      k.launched := k.launched[t := true];
      assert tempBuf[..] == junk;
      var _ := ExecuteCommand(k, img, SHELL, tempBuf, window, t, true);
    }
  }

  /** On a packed image a command's first word names the file that is loaded, whatever follows it. */
  lemma PackedCommand(files: seq<File>, i: nat, rest: Bytes)
    requires Packable(files) && i < |files| && SPACE !in files[i].name
    requires forall j :: 0 <= j < i ==> files[j].name != files[i].name
    requires rest == [] || rest[0] == SPACE
    ensures WellFormed(Pack(files)) && EntryOf(Pack(files), files[i].name + rest) == i
    ensures InodeOf(Pack(files), i) == i && Flat(Pack(files), i) == files[i].bytes
  {
    hide Pack;
    PackedReads(files, i, 0, 0);
    PackedIs(files);
    FirstWord(files[i].name, rest);
  }

  lemma FirstWord(name: Bytes, rest: Bytes)
    requires SPACE !in name && (rest == [] || rest[0] == SPACE)
    ensures FileName(name + rest) == name
  {
    var cmd := name + rest;
    var n := FirstSpace(cmd);
    assert forall k :: 0 <= k < |name| ==> cmd[k] == name[k] && name[k] in name;
    assert forall k :: 0 <= k < n ==> cmd[0..n][k] in cmd[0..n];
    assert rest != [] ==> cmd[|name|] == rest[0];
    assert n == |name|;
    assert cmd[..n] == name;
  }
}
