/** 32-bit paging (section 4.3 of the Intel SDM, Volume 3A) and the tables paging.c builds and edits. */
module Paging {
  const ENTRIES := 1024
  const PAGE_SIZE := 0x1000
  const LARGE_PAGE := 0x400000
  const USER_SPACE_START := 32
  const USER_VIDEO_START := 40
  const VIDEO_IND := 0xB8
  const STATIC_VIDEO_IND := 0xBC

  datatype Pte = Pte(present: bool, readWrite: bool, user: bool, address: int)

  datatype Pde = Pde(present: bool, readWrite: bool, user: bool, large: bool, address: int)

  datatype Translation = Fault | Physical(address: int)

  /** Where terminal t's page is: the video frame while displayed, its own backing frame otherwise. */
  function TerminalFrame(t: int, display: int): int { if t == display then VIDEO_IND else VIDEO_IND + t + 1 }

  const BLANK_PTE := Pte(false, false, false, 0)
  const BLANK_PDE := Pde(false, true, false, false, 0)

  /** A 4 MB page of a user program. */
  function TaskPde(frame: int): Pde { Pde(true, true, true, true, frame) }

  class Tables {
    const dir: array<Pde>
    const table: array<Pte>
    const userVideo: array<Pte>
    const tableFrame: int       // the frame holding `table`
    const userVideoFrame: int   // the frame holding `userVideo`

    ghost predicate Valid()
    {
      && dir.Length == table.Length == userVideo.Length == ENTRIES
      && table != userVideo
      && tableFrame != userVideoFrame
    }

    constructor (tableFrame: int, userVideoFrame: int)
      requires tableFrame != userVideoFrame
      ensures Valid() && fresh(dir) && fresh(table) && fresh(userVideo)
      ensures this.tableFrame == tableFrame && this.userVideoFrame == userVideoFrame
    {
      dir := new Pde[ENTRIES](_ => BLANK_PDE);
      table := new Pte[ENTRIES](_ => BLANK_PTE);
      userVideo := new Pte[ENTRIES](_ => BLANK_PTE);
      this.tableFrame := tableFrame;
      this.userVideoFrame := userVideoFrame;
    }

    /** The page walk for one access; user accesses are taken to be stores, which need the read/write bit. */
    function Translate(linear: int, user: bool): Translation
      requires Valid() && 0 <= linear < 0x1_0000_0000
      reads dir, table, userVideo
    {
      var pde := dir[linear / LARGE_PAGE];
      if !pde.present || (user && !(pde.user && pde.readWrite)) then Fault
      else if pde.large then Physical(pde.address / 1024 * LARGE_PAGE + linear % LARGE_PAGE)
      else if pde.address == tableFrame then Walk(table[linear / PAGE_SIZE % ENTRIES], linear, user)
      else if pde.address == userVideoFrame then Walk(userVideo[linear / PAGE_SIZE % ENTRIES], linear, user)
      else Fault
    }

    static function Walk(pte: Pte, linear: int, user: bool): Translation {
      if !pte.present || (user && !(pte.user && pte.readWrite)) then Fault
      else Physical(pte.address * PAGE_SIZE + linear % PAGE_SIZE)
    }

    /** What paging_init establishes and every later edit keeps. */
    ghost predicate Live()
      requires Valid()
      reads dir, table, userVideo
    {
      && dir[0] == Pde(true, true, false, false, tableFrame)
      && dir[1] == Pde(true, true, false, true, 1024)
      && dir[USER_VIDEO_START] == Pde(true, true, true, false, userVideoFrame)
      && (dir[USER_SPACE_START].present ==> dir[USER_SPACE_START] == TaskPde(dir[USER_SPACE_START].address))
      && (forall i :: 2 <= i < ENTRIES && i != USER_VIDEO_START && i != USER_SPACE_START ==> !dir[i].present)
      && (forall i :: 0 <= i < ENTRIES ==> Entry(table[i], i, false, table[VIDEO_IND].address))
      && (forall i :: 0 <= i < ENTRIES ==> Entry(userVideo[i], i, true, userVideo[VIDEO_IND].address))
    }

    static predicate Entry(pte: Pte, i: int, user: bool, video: int) {
      pte == Pte(i != 0, true, user,
                 if i == VIDEO_IND then video else if i == STATIC_VIDEO_IND && !user then VIDEO_IND else i)
    }

    /** Which 4 KB frame each low page reaches while the tables are live. */
    ghost function LowFrame(page: int, user: bool): int
      requires Valid()
      reads table, userVideo
    {
      if page == VIDEO_IND then (if user then userVideo[VIDEO_IND].address else table[VIDEO_IND].address)
      else if page == STATIC_VIDEO_IND && !user then VIDEO_IND
      else page
    }

    /** The whole translation: the kernel sees low memory through `table`, user code sees the same
        frames 160 MB higher through `userVideo`, the kernel's 4 MB page is the identity, the null pages
        fault, the task page is the frame its entry names, and nothing else answers. */
    lemma TranslateLive(linear: int, user: bool)
      requires Valid() && Live() && 0 <= linear < 0x1_0000_0000
      ensures linear / LARGE_PAGE == 0 ==>
                Translate(linear, user) ==
                  if user || linear < PAGE_SIZE then Fault
                  else Physical(LowFrame(linear / PAGE_SIZE, false) * PAGE_SIZE + linear % PAGE_SIZE)
      ensures linear / LARGE_PAGE == 1 ==> Translate(linear, user) == if user then Fault else Physical(linear)
      ensures linear / LARGE_PAGE == USER_SPACE_START ==>
                Translate(linear, user) ==
                  if !dir[USER_SPACE_START].present then Fault
                  else Physical(dir[USER_SPACE_START].address / 1024 * LARGE_PAGE + linear % LARGE_PAGE)
      ensures linear / LARGE_PAGE == USER_VIDEO_START ==>
                var low := linear - USER_VIDEO_START * LARGE_PAGE;
                Translate(linear, user) == if low < PAGE_SIZE then Fault
                                           else Physical(LowFrame(low / PAGE_SIZE, true) * PAGE_SIZE + low % PAGE_SIZE)
      ensures linear / LARGE_PAGE !in {0, 1, USER_SPACE_START, USER_VIDEO_START} ==> Translate(linear, user) == Fault
    {
      var i := linear / PAGE_SIZE % ENTRIES;
      assert Entry(table[i], i, false, table[VIDEO_IND].address);
      assert Entry(userVideo[i], i, true, userVideo[VIDEO_IND].address);
      if linear / LARGE_PAGE == 0 {
        assert i == linear / PAGE_SIZE;
      } else if linear / LARGE_PAGE == USER_VIDEO_START {
        var low := linear - USER_VIDEO_START * LARGE_PAGE;
        assert linear / PAGE_SIZE == USER_VIDEO_START * ENTRIES + low / PAGE_SIZE;
        assert i == low / PAGE_SIZE;
      }
    }

    /** setupt_video_user_level */
    method SetupUserVideo()
      requires Valid()
      modifies dir, userVideo
      ensures forall i :: 0 <= i < ENTRIES ==> Entry(userVideo[i], i, true, VIDEO_IND)
      ensures dir[..] == old(dir[..])[USER_VIDEO_START := Pde(true, true, true, false, userVideoFrame)]
    {
      for i := 0 to ENTRIES
        invariant dir[..] == old(dir[..])
        invariant forall k :: 0 <= k < i ==> Entry(userVideo[k], k, true, VIDEO_IND)
      {
        userVideo[i] := BLANK_PTE;
        if i != 0 { userVideo[i] := userVideo[i].(present := true); }
        userVideo[i] := userVideo[i].(user := true);
        userVideo[i] := userVideo[i].(readWrite := true);
        userVideo[i] := userVideo[i].(address := i);
      }
      dir[USER_VIDEO_START] := BLANK_PDE;
      dir[USER_VIDEO_START] := dir[USER_VIDEO_START].(present := true, user := true, large := false);
      dir[USER_VIDEO_START] := dir[USER_VIDEO_START].(address := userVideoFrame);
    }

    /** paging_init, up to loading the control registers. */
    method Init()
      requires Valid()
      modifies dir, table, userVideo
      ensures Live()
      ensures table[VIDEO_IND].address == userVideo[VIDEO_IND].address == VIDEO_IND
      ensures !dir[USER_SPACE_START].present
    {
      for i := 2 to ENTRIES
        invariant forall k :: 2 <= k < i ==> !dir[k].present
      {
        dir[i] := BLANK_PDE;
        dir[i] := dir[i].(readWrite := true, address := i * 1024, large := true);
      }
      for i := 0 to ENTRIES
        invariant forall k :: 2 <= k < ENTRIES ==> !dir[k].present
        invariant forall k :: 0 <= k < i ==> table[k] == Pte(k != 0, true, false, k)
      {
        table[i] := BLANK_PTE;
        if i != 0 { table[i] := table[i].(present := true); }
        table[i] := table[i].(readWrite := true, address := i);
      }
      table[STATIC_VIDEO_IND] := table[STATIC_VIDEO_IND].(address := VIDEO_IND);
      dir[0] := BLANK_PDE.(address := tableFrame, present := true);
      dir[1] := BLANK_PDE.(present := true, address := 1024, large := true, user := false);
      SetupUserVideo();
      SetActiveTerminal(0, true);
    }

    /** setup_task_page: the 4 MB user page of process `ind` starts at 8 MB + ind * 4 MB. */
    method SetupTaskPage(ind: int)
      requires Valid()
      modifies dir
      ensures dir[..] == old(dir[..])[USER_SPACE_START := TaskPde(ind * 1024 + 2048)]
    {
      dir[USER_SPACE_START] := BLANK_PDE;
      dir[USER_SPACE_START] := dir[USER_SPACE_START].(present := true, user := true, large := true);
      dir[USER_SPACE_START] := dir[USER_SPACE_START].(address := ind * 1024 + 2048);
    }

    /** set_active_terminal_paging */
    method SetActiveTerminal(t: int, display: bool)
      requires Valid()
      modifies table, userVideo
      ensures var frame := if display then VIDEO_IND else VIDEO_IND + t + 1;
              && table[..] == old(table[..])[VIDEO_IND := old(table[VIDEO_IND]).(address := frame)]
              && userVideo[..] == old(userVideo[..])[VIDEO_IND := old(userVideo[VIDEO_IND]).(address := frame)]
    {
      if !display {
        table[VIDEO_IND] := table[VIDEO_IND].(address := VIDEO_IND + t + 1);
        userVideo[VIDEO_IND] := userVideo[VIDEO_IND].(address := VIDEO_IND + t + 1);
      } else {
        table[VIDEO_IND] := table[VIDEO_IND].(address := VIDEO_IND);
        userVideo[VIDEO_IND] := userVideo[VIDEO_IND].(address := VIDEO_IND);
      }
    }
  }
}
