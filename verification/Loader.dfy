/** What execute learns from the file system before and while it commits to a new process. */
module Loader {
  import opened Words
  import opened FileSystem
  import opened Directory
  import opened Processes

  const HEADER := 28
  const MAX_INT := 0x7fff_ffff
  const MAGIC: Bytes := [0x7f, 0x45, 0x4c, 0x46]

  const USER_PROGRAM_ADDR := 0x8048000
  const USER_PAGE_END := 0x8400000

  /** The part of the user page a program is loaded into. */
  const WINDOW := USER_PAGE_END - USER_PROGRAM_ADDR

  /** The first space of the command, or its end. */
  function FirstSpace(cmd: Bytes, i: int := 0): (r: int)
    requires 0 <= i <= |cmd|
    ensures i <= r <= |cmd| && SPACE !in cmd[i..r] && (r < |cmd| ==> cmd[r] == SPACE)
    decreases |cmd| - i
  {
    if i == |cmd| || cmd[i] == SPACE then i else FirstSpace(cmd, i + 1)
  }

  function FileName(cmd: Bytes): Bytes { cmd[..FirstSpace(cmd)] }

  /** tempBuf after the header read: stale stack bytes show where the file is shorter, or unreadable. */
  function Header(img: Bytes, ino: int, junk: Bytes): (r: Bytes)
    requires GoodInodes(img) && 0 <= ino < MODULUS && |junk| >= HEADER
    ensures |r| == |junk|
  {
    match ReadFile(img, ino, 0, HEADER)
    case Data(bytes) => (if |bytes| <= |junk| then bytes + junk[|bytes|..] else junk)
    case _ => junk
  }

  /** The entry a command names. */
  function EntryOf(img: Bytes, cmd: Bytes): (i: int)
    requires Sized(img)
    ensures i == -1 || 0 <= i < Dentries(img)
  {
    FirstNamed(img, FileName(cmd))
  }

  /** The inode of the entry a command names, when the magic-number test lets it through. */
  function Accepted(img: Bytes, cmd: Bytes, junk: Bytes): Option<Word>
    requires GoodInodes(img) && |junk| >= HEADER
  {
    var i := EntryOf(img, cmd);
    if i == -1 || Header(img, InodeOf(img, i), junk)[..4] != MAGIC then None else Some(InodeOf(img, i))
  }

  /** The probing of execute_with_terminal_num: lookup, magic number, load_executable. */
  function ProbeOf(img: Bytes, cmd: Bytes, junk: Bytes): Probe
    requires GoodInodes(img) && |junk| >= HEADER
  {
    if EntryOf(img, cmd) == -1 then NotFound
    else
      match Accepted(img, cmd, junk)
      case None => NotExecutable
      case Some(ino) => LoadProbe(img, ino)
  }

  /** How load_executable ends. */
  function LoadProbe(img: Bytes, ino: Word): Probe
    requires GoodInodes(img)
  {
    match ReadFile(img, ino, 0, MAX_INT)
    case Data(bytes) => if |bytes| <= WINDOW then Loads else LoadFaults
    case _ => LoadFails
  }

  /** What the maximal read delivers is the whole file. */
  lemma LoadsWholeFile(img: Bytes, ino: Word)
    requires GoodInodes(img) && ino < Inodes(img)
    ensures ReadFile(img, ino, 0, MAX_INT) == Data(Flat(img, ino))
  {
    assert GoodInode(img, ino);
    SaneReads(img, ino, 0, MAX_INT);
    assert Slice(Flat(img, ino), 0, MAX_INT) == Flat(img, ino)[0..|Flat(img, ino)|];
  }

  /** What the header read leaves in tempBuf. */
  lemma HeaderIs(img: Bytes, ino: Word, junk: Bytes)
    requires GoodInodes(img) && |junk| >= HEADER
    ensures ino >= Inodes(img) ==> Header(img, ino, junk) == junk
    ensures ino < Inodes(img) ==>
              var file := Flat(img, ino);
              Header(img, ino, junk) == if |file| < HEADER then file + junk[|file|..]
                                        else file[..HEADER] + junk[HEADER..]
  {
    if ino < Inodes(img) {
      SaneReads(img, ino, 0, HEADER);
      var file := Flat(img, ino);
      assert Slice(file, 0, HEADER) == if |file| < HEADER then file else file[..HEADER];
    }
  }

  /** Loading fails, or runs off the user page, after a pid was taken exactly when the entry's inode number is out
      of range and stale stack bytes happen to look like an executable, or the file is an executable larger than
      the window. */
  lemma CleanIff(img: Bytes, cmd: Bytes, junk: Bytes)
    requires GoodInodes(img) && |junk| >= HEADER
    ensures var i, probe := EntryOf(img, cmd), ProbeOf(img, cmd, junk);
            && (probe.LoadFails? <==> i >= 0 && InodeOf(img, i) >= Inodes(img) && junk[..4] == MAGIC)
            && (probe.LoadFaults? <==> i >= 0 && InodeOf(img, i) < Inodes(img) && Oversized(img, InodeOf(img, i)))
  {
    var i := EntryOf(img, cmd);
    if i >= 0 {
      var ino := InodeOf(img, i);
      HeaderIs(img, ino, junk);
      if ino < Inodes(img) {
        LoadsWholeFile(img, ino);
        var file := Flat(img, ino);
        assert |file| >= HEADER ==> (file[..HEADER] + junk[HEADER..])[..4] == file[..4];
      }
    }
  }

  /** A program starts exactly when its file exists, fits and shows the magic number. */
  lemma LoadsIff(img: Bytes, cmd: Bytes, junk: Bytes)
    requires GoodInodes(img) && |junk| >= HEADER
    ensures var i := EntryOf(img, cmd);
            ProbeOf(img, cmd, junk).Loads? <==>
            && i >= 0 && InodeOf(img, i) < Inodes(img) && Length(img, InodeOf(img, i)) <= WINDOW
            && Header(img, InodeOf(img, i), junk)[..4] == MAGIC
  {
    var i := EntryOf(img, cmd);
    if i >= 0 && InodeOf(img, i) < Inodes(img) { LoadsWholeFile(img, InodeOf(img, i)); }
  }

  /** An executable that does not fit between USER_PROGRAM_ADDR and the end of the user page. */
  predicate Oversized(img: Bytes, ino: int)
    requires GoodInodes(img) && 0 <= ino < Inodes(img)
  {
    Length(img, ino) > WINDOW && Flat(img, ino)[..4] == MAGIC
  }

  /** The loop over the command up to its first space. */
  method CutFileName(cmd: Bytes) returns (fname: Bytes)
    ensures fname == FileName(cmd)
  {
    var i := 0;
    while i < |cmd|
      invariant 0 <= i <= |cmd| && FirstSpace(cmd) == FirstSpace(cmd, i)
    {
      if cmd[i] == SPACE { break; }
      i := i + 1;
    }
    fname := cmd[..i];
  }

  /** The magic-number test on the header; `tempBuf` is execute's uninitialised local buffer. */
  method CheckMagic(img: Bytes, ino: Word, tempBuf: array<Byte>) returns (ok: bool)
    requires GoodInodes(img) && tempBuf.Length >= HEADER
    modifies tempBuf
    ensures ok <==> Header(img, ino, old(tempBuf[..]))[..4] == MAGIC
  {
    ghost var junk := tempBuf[..];
    if ino < Inodes(img) { SaneReads(img, ino, 0, HEADER); }
    var _ := ReadData(img, ino, 0, HEADER, tempBuf);
    assert tempBuf[..] == Header(img, ino, junk);
    ok := tempBuf[..][..4] == MAGIC;
  }

  /** Lookup and magic-number test. */
  method FindExecutable(img: Bytes, cmd: Bytes, tempBuf: array<Byte>) returns (r: Option<Word>)
    requires Typed(img) && NUL !in cmd && tempBuf.Length >= HEADER
    modifies tempBuf
    ensures r == Accepted(img, cmd, old(tempBuf[..]))
  {
    var fname := CutFileName(cmd);
    var entry := ReadDentryByName(img, fname);
    if entry.None? { return None; }
    assert InodeOf(img, EntryOf(img, cmd)) == entry.value.inode;
    var ok := CheckMagic(img, entry.value.inode, tempBuf);
    if !ok { return None; }
    return Some(entry.value.inode);
  }

  /** load_executable into the window. Loading completes exactly when the file exists and fits; a larger one fills
      the window and faults on the byte after it. */
  method LoadExecutable(img: Bytes, ino: Word, window: array<Byte>) returns (code: int)
    requires GoodInodes(img) && window.Length == WINDOW
    modifies window
    ensures code == 0 <==> ino < Inodes(img) && Length(img, ino) <= WINDOW
    ensures code == FAULT <==> ino < Inodes(img) && Length(img, ino) > WINDOW
    ensures code == 0 ==> window[..] == Flat(img, ino) + old(window[..])[Length(img, ino)..]
    ensures code == FAULT ==> window[..] == Flat(img, ino)[..WINDOW]
    ensures code == -1 || code == 0 || code == FAULT
    ensures code == -1 ==> window[..] == old(window[..])
  {
    if ino < Inodes(img) { LoadsWholeFile(img, ino); }
    var count := ReadData(img, ino, 0, MAX_INT, window);
    if count == FAULT { return FAULT; }
    code := if count != -1 then 0 else -1;
  }
}
