/** The three virtual terminals of lib.c over one video page, at the level of physical bytes.
    `Abs` is the three logical screens the page tables are meant to keep apart. */
module Console {
  import opened Words
  import opened Paging
  import opened Screens
  import Memory

  const VIDEO := 0xB8000              // video_mem: remapped as terminals become active or displayed
  const VIDEO_PHYSICAL := 0xBC000     // physical_video_mem: always the displayed frame
  const USER_WINDOW := 0xA000000      // user code sees low memory here
  const NOBODY := -1
  const MEMORY := 0x100000

  function Base(t: int, display: int): int { TerminalFrame(t, display) * PAGE_SIZE }

  ghost predicate PageAt(m: Bytes, b: int) { |m| == MEMORY && 0 <= b <= MEMORY - PAGE }

  ghost function Page(m: Bytes, b: int): (r: Bytes)
    requires PageAt(m, b)
    ensures |r| == PAGE
  {
    m[b..b + PAGE]
  }

  ghost function LogicalScreens(m: Bytes, display: int, xs: seq<int>, ys: seq<int>): (r: seq<Term>)
    requires |m| == MEMORY && 0 <= display < TERMINALS && |xs| == |ys| == TERMINALS
    ensures |r| == TERMINALS
  {
    seq(TERMINALS, t requires 0 <= t < TERMINALS => Term(Page(m, Base(t, display)), xs[t], ys[t]))
  }

  /** The monitor shows the displayed terminal's screen: its page is the video frame. */
  lemma DisplayedIsVideo(m: Bytes, display: int, xs: seq<int>, ys: seq<int>)
    requires |m| == MEMORY && 0 <= display < TERMINALS && |xs| == |ys| == TERMINALS
    ensures LogicalScreens(m, display, xs, ys)[display].bytes == m[0xB8000..0xB9000]
  {
  }

  /** Memory differs only in the page at b, which is now `page`. */
  ghost predicate Wrote(m: Bytes, m': Bytes, b: int, page: Bytes) {
    && PageAt(m, b) && PageAt(m', b) && Page(m', b) == page
    && (forall a :: 0 <= a < MEMORY && !(b <= a < b + PAGE) ==> m'[a] == m[a])
  }

  /** A change to one page and one cursor is a change to one logical screen. */
  lemma WroteOne(m: Bytes, m': Bytes, display: int, xs: seq<int>, ys: seq<int>, t: int, term: Term)
    requires |m| == |m'| == MEMORY && |xs| == |ys| == TERMINALS && 0 <= t < TERMINALS && 0 <= display < TERMINALS
    requires Wrote(m, m', Base(t, display), term.bytes)
    ensures LogicalScreens(m', display, xs[t := term.x], ys[t := term.y]) ==
            LogicalScreens(m, display, xs, ys)[t := term]
  {
    var r := LogicalScreens(m', display, xs[t := term.x], ys[t := term.y]);
    forall u | 0 <= u < TERMINALS ensures r[u] == LogicalScreens(m, display, xs, ys)[t := term][u] {
      if u != t { assert Page(m', Base(u, display)) == Page(m, Base(u, display)); }
    }
  }

  lemma CellWrote(m: Bytes, m': Bytes, b: int, n: int, c: Byte)
    requires PageAt(m, b) && 0 <= n < COLS * ROWS && m' == m[b + 2 * n := c][b + 2 * n + 1 := ATTRIB]
    ensures Wrote(m, m', b, PutCell(Page(m, b), n, c))
  {
  }

  /** Bytes below n of the page at b have been shifted, the rest of memory is as it was. */
  ghost predicate Shifting(m: Bytes, m': Bytes, b: int, n: int) {
    && PageAt(m, b) && |m'| == MEMORY
    && forall a :: 0 <= a < MEMORY ==>
         m'[a] == if b <= a < b + PAGE && a - b < n then ShiftedByte(Page(m, b), a - b) else m[a]
  }

  lemma ShiftStep(m: Bytes, m1: Bytes, b: int, n: int, c: Byte)
    requires Shifting(m, m1, b, 2 * n) && 0 <= n < COLS * ROWS
    requires c == if n < COLS * (ROWS - 1) then m1[b + 2 * (n + COLS)] else SPACE
    ensures Shifting(m, m1[b + 2 * n := c][b + 2 * n + 1 := ATTRIB], b, 2 * (n + 1))
  {
    assert ShiftedByte(Page(m, b), 2 * n) == c;
  }

  lemma ShiftDone(m: Bytes, m': Bytes, b: int)
    requires Shifting(m, m', b, 2 * COLS * ROWS)
    ensures Wrote(m, m', b, ShiftUp(Page(m, b)))
  {
    assert Page(m', b) == ShiftUp(Page(m, b));
  }

  /** Cells i to i + n - 1 of the video frame are blank, the rest of memory is as it was. */
  ghost predicate Blanking(m: Bytes, m': Bytes, i: int, n: int) {
    && |m| == |m'| == MEMORY
    && forall a :: 0 <= a < MEMORY ==>
         m'[a] == if VIDEO <= a < VIDEO + PAGE then BlankedByte(Page(m, VIDEO), i, n, a - VIDEO) else m[a]
  }

  lemma BlankStep(m: Bytes, m1: Bytes, i: int, n: int)
    requires Blanking(m, m1, i, n) && 0 <= i && 0 <= n && i + n < ROWS * COLS
    ensures Blanking(m, m1[VIDEO + 2 * (i + n) := SPACE][VIDEO + 2 * (i + n) + 1 := ATTRIB], i, n + 1)
  {
  }

  /** The first n bytes of the page at src have been copied over those at dst. */
  ghost predicate Copied(m: Bytes, m': Bytes, dst: int, src: int, n: int) {
    PageAt(m, dst) && PageAt(m, src) && 0 <= n <= PAGE && Memory.Copied(m', m, dst, src, n)
  }

  lemma CopiedStep(m: Bytes, m1: Bytes, dst: int, src: int, i: int)
    requires Copied(m, m1, dst, src, i) && 0 <= i < PAGE && (src + PAGE <= dst || dst + PAGE <= src)
    ensures Copied(m, m1[dst + i := m1[src + i]], dst, src, i + 1)
  {
    assert m1[src + i] == Memory.CopiedByte(m, dst, src, i, src + i) == m[src + i];
  }

  lemma CopiedPage(m: Bytes, m': Bytes, dst: int, src: int, b: int)
    requires Copied(m, m', dst, src, PAGE) && PageAt(m, b) && (b + PAGE <= dst || dst + PAGE <= b || b == dst)
    ensures Page(m', b) == if b == dst then Page(m, src) else Page(m, b)
  {
    forall k | 0 <= k < PAGE ensures Page(m', b)[k] == (if b == dst then Page(m, src) else Page(m, b))[k] {
      assert Page(m', b)[k] == m'[b + k];
    }
  }

  lemma SwitchedPage(m: Bytes, m1: Bytes, m2: Bytes, d: int, t: int, u: int)
    requires |m| == MEMORY && 0 <= d < TERMINALS && 0 <= t < TERMINALS && 0 <= u < TERMINALS
    requires Copied(m, m1, VIDEO + PAGE_SIZE * (d + 1), VIDEO, PAGE)
    requires Copied(m1, m2, VIDEO, VIDEO + PAGE_SIZE * (t + 1), PAGE)
    ensures Page(m2, Base(u, t)) == Page(m, Base(u, d))
  {
    CopiedPage(m1, m2, VIDEO, VIDEO + PAGE_SIZE * (t + 1), Base(u, t));
    CopiedPage(m, m1, VIDEO + PAGE_SIZE * (d + 1), VIDEO, VIDEO + PAGE_SIZE * (u + 1));
  }

  /** Saving the displayed page and loading another one changes no logical screen. */
  lemma SwitchKeepsScreens(m: Bytes, m1: Bytes, m2: Bytes, d: int, t: int, xs: seq<int>, ys: seq<int>)
    requires |m| == MEMORY && 0 <= d < TERMINALS && 0 <= t < TERMINALS && |xs| == |ys| == TERMINALS
    requires Copied(m, m1, VIDEO + PAGE_SIZE * (d + 1), VIDEO, PAGE)
    requires Copied(m1, m2, VIDEO, VIDEO + PAGE_SIZE * (t + 1), PAGE)
    ensures LogicalScreens(m2, t, xs, ys) == LogicalScreens(m, d, xs, ys)
  {
    SwitchedPage(m, m1, m2, d, t, 0);
    SwitchedPage(m, m1, m2, d, t, 1);
    SwitchedPage(m, m1, m2, d, t, 2);
  }

  /** The terminal whose page is in this frame just now, or NOBODY. */
  function OwnerOf(frame: int, display: int): int {
    if frame == VIDEO_IND then display
    else if VIDEO_IND < frame <= VIDEO_IND + TERMINALS && frame != VIDEO_IND + display + 1 then frame - VIDEO_IND - 1
    else NOBODY
  }

  /** The frame behind a page of the user's video window. */
  function UserFrame(page: int, active: int, display: int): int {
    if page == VIDEO_IND then TerminalFrame(active, display) else page
  }

  /** What a user store at `low` in that window does to the screens. */
  function UserStored(screens: seq<Term>, low: int, b: Byte, active: int, display: int): (r: seq<Term>)
    requires AllValid(screens) && 0 <= active < TERMINALS && 0 <= display < TERMINALS
    ensures AllValid(r)
  {
    var t := OwnerOf(UserFrame(low / PAGE_SIZE, active, display), display);
    if t == NOBODY then screens else screens[t := Poke(screens[t], low % PAGE_SIZE, b)]
  }

  /** The screens after an erase at the origin. */
  ghost function Spilled(screens: seq<Term>, display: int): seq<Term>
    requires AllValid(screens) && 0 <= display < TERMINALS
  {
    var last := screens[2];
    var s := if display == 2 then screens
             else screens[2 := last.(bytes := last.bytes[PAGE - 2 := SPACE][PAGE - 1 := ATTRIB])];
    s[display := s[display].(x := COLS - 1, y := -1)]
  }

  /** A store changes the active terminal's screen through the page vidmap hands out, another terminal's through
      that terminal's backing page unless it is displayed, and no screen through any other page. */
  lemma UserStoreHits(screens: seq<Term>, low: int, b: Byte, active: int, display: int, t: int)
    requires AllValid(screens) && 0 <= active < TERMINALS && 0 <= display < TERMINALS && 0 <= t < TERMINALS
    requires 0 <= low < LARGE_PAGE && screens[t].bytes[low % PAGE_SIZE] != b
    ensures var page := low / PAGE_SIZE;
            UserStored(screens, low, b, active, display)[t] != screens[t] <==>
            (page == VIDEO_IND && t == active) || (page == VIDEO_IND + t + 1 && t != display)
  {
    var k := low % PAGE_SIZE;
    assert Poke(screens[t], k, b).bytes[k] == b;
  }

  lemma StoreOne(m: Bytes, display: int, xs: seq<int>, ys: seq<int>, a: int, b: Byte)
    requires |m| == MEMORY && 0 <= display < TERMINALS && |xs| == |ys| == TERMINALS && 0 <= a < MEMORY
    requires AllValid(LogicalScreens(m, display, xs, ys))
    ensures var screens, t := LogicalScreens(m, display, xs, ys), OwnerOf(a / PAGE_SIZE, display);
            LogicalScreens(m[a := b], display, xs, ys) ==
            if t == NOBODY then screens else screens[t := Poke(screens[t], a % PAGE_SIZE, b)]
  {
    var t := OwnerOf(a / PAGE_SIZE, display);
    forall u | 0 <= u < TERMINALS
      ensures Page(m[a := b], Base(u, display)) ==
              if u == t then Page(m, Base(u, display))[a % PAGE_SIZE := b] else Page(m, Base(u, display))
    {
    }
  }

  class Video {
    const tables: Tables
    const mem: array<Byte>            // physical memory below 1 MB
    var xs: seq<int>                  // screen_x_multi
    var ys: seq<int>                  // screen_y_multi
    var active: int
    var display: int

    /** After paging_init: every cursor at the origin, terminal 0 active and displayed. */
    constructor (tableFrame: int, userVideoFrame: int)
      requires tableFrame != userVideoFrame
      ensures Valid() && fresh(mem)
      ensures fresh(tables) && fresh(tables.dir) && fresh(tables.table) && fresh(tables.userVideo)
      ensures active == display == 0 && xs == ys == [0, 0, 0]
    {
      var tables := new Tables(tableFrame, userVideoFrame);
      tables.Init();
      this.tables := tables;
      mem := new Byte[MEMORY];
      xs, ys := [0, 0, 0], [0, 0, 0];
      active, display := 0, 0;
    }

    ghost predicate Valid()
      reads this, mem, tables.dir, tables.table, tables.userVideo
    {
      && Shape()
      && AllValid(Abs())
    }

    ghost predicate Sized()
      reads this, tables.dir, tables.table, tables.userVideo
    {
      && tables.Valid() && tables.Live()
      && mem.Length == MEMORY
      && |xs| == |ys| == TERMINALS
      && 0 <= active < TERMINALS && 0 <= display < TERMINALS
    }

    /** The two video entries agree with the active and the displayed terminal. */
    ghost predicate Shape()
      reads this, tables.dir, tables.table, tables.userVideo
    {
      && Sized()
      && tables.table[VIDEO_IND].address == tables.userVideo[VIDEO_IND].address == TerminalFrame(active, display)
    }

    ghost function Abs(): seq<Term>
      requires Sized()
      reads this, mem, tables.dir, tables.table, tables.userVideo
    {
      LogicalScreens(mem[..], display, xs, ys)
    }

    /** Addresses through which terminal t's page is reached just now. */
    ghost predicate Window(base: int, t: int)
      reads this
    {
      (base == VIDEO && t == active) || (base == VIDEO_PHYSICAL && t == display)
    }

    lemma WindowReaches(base: int, t: int, k: int)
      requires Shape() && Window(base, t) && 0 <= k < PAGE
      ensures tables.Translate(base + k, false) == Physical(Base(t, display) + k)
    {
      tables.TranslateLive(base + k, false);
      assert (base + k) / PAGE_SIZE == base / PAGE_SIZE;
    }

    method Store(linear: int, b: Byte)
      requires Shape() && 0 <= linear < MEMORY
      requires tables.Translate(linear, false).Physical? && 0 <= tables.Translate(linear, false).address < MEMORY
      modifies mem
      ensures mem[..] == old(mem[..])[tables.Translate(linear, false).address := b]
    {
      mem[tables.Translate(linear, false).address] := b;
    }

    method Load(linear: int) returns (b: Byte)
      requires Shape() && 0 <= linear < MEMORY
      requires tables.Translate(linear, false).Physical? && 0 <= tables.Translate(linear, false).address < MEMORY
      ensures b == mem[tables.Translate(linear, false).address]
    {
      b := mem[tables.Translate(linear, false).address];
    }

    /** The character and its attribute, as every routine writes them. */
    method StoreCell(base: int, t: int, n: int, c: Byte)
      requires Shape() && Window(base, t) && 0 <= t < TERMINALS && 0 <= n < COLS * ROWS
      modifies mem
      ensures mem[..] == old(mem[..])[Base(t, display) + 2 * n := c][Base(t, display) + 2 * n + 1 := ATTRIB]
    {
      WindowReaches(base, t, 2 * n);
      WindowReaches(base, t, 2 * n + 1);
      Store(base + 2 * n, c);
      Store(base + 2 * n + 1, ATTRIB);
    }

    /** One cell of shift_up takes the character below it. */
    method ShiftCell(base: int, t: int, n: int, ghost m0: Bytes)
      requires Shape() && Window(base, t) && 0 <= t < TERMINALS && 0 <= n < COLS * (ROWS - 1)
      requires Shifting(m0, mem[..], Base(t, display), 2 * n)
      modifies mem
      ensures Shifting(m0, mem[..], Base(t, display), 2 * (n + 1))
    {
      hide Shifting;
      WindowReaches(base, t, 2 * (n + COLS));
      var c := Load(base + 2 * (n + COLS));
      ShiftStep(m0, mem[..], Base(t, display), n, c);
      StoreCell(base, t, n, c);
    }

    /** The inner loop of shift_up: row y takes the characters of the row below it. */
    method ShiftRow(base: int, t: int, y: int, ghost m0: Bytes)
      requires Shape() && Window(base, t) && 0 <= t < TERMINALS && 0 <= y < ROWS - 1
      requires Shifting(m0, mem[..], Base(t, display), 2 * (COLS * y))
      modifies mem
      ensures Shifting(m0, mem[..], Base(t, display), 2 * (COLS * (y + 1)))
    {
      var x := 0;
      while x < COLS
        invariant 0 <= x <= COLS
        invariant Shifting(m0, mem[..], Base(t, display), 2 * (COLS * y + x))
      {
        ShiftCell(base, t, COLS * y + x, m0);
        x := x + 1;
      }
    }

    /** The last loop of shift_up: the bottom row becomes blank. */
    method BlankLastRow(base: int, t: int, ghost m0: Bytes)
      requires Shape() && Window(base, t) && 0 <= t < TERMINALS
      requires Shifting(m0, mem[..], Base(t, display), 2 * (COLS * (ROWS - 1)))
      modifies mem
      ensures Shifting(m0, mem[..], Base(t, display), 2 * COLS * ROWS)
    {
      var x := 0;
      while x < COLS
        invariant 0 <= x <= COLS
        invariant Shifting(m0, mem[..], Base(t, display), 2 * (COLS * (ROWS - 1) + x))
      {
        ShiftStep(m0, mem[..], Base(t, display), COLS * (ROWS - 1) + x, SPACE);
        StoreCell(base, t, COLS * (ROWS - 1) + x, SPACE);
        x := x + 1;
      }
    }

    /** shift_up (base == VIDEO) and shift_up_display (base == VIDEO_PHYSICAL) */
    method ShiftUpAt(base: int, t: int)
      requires Shape() && Window(base, t) && 0 <= t < TERMINALS
      modifies mem, `xs, `ys
      ensures Shape() && xs == old(xs)[t := 0] && ys == old(ys)[t := ROWS - 1]
      ensures Wrote(old(mem[..]), mem[..], Base(t, display), ShiftUp(Page(old(mem[..]), Base(t, display))))
    {
      ghost var m0 := mem[..];
      var y := 0;
      while y < ROWS - 1
        invariant 0 <= y <= ROWS - 1
        invariant Shifting(m0, mem[..], Base(t, display), 2 * (COLS * y))
        modifies mem
      {
        ShiftRow(base, t, y, m0);
        y := y + 1;
      }
      BlankLastRow(base, t, m0);
      ShiftDone(m0, mem[..], Base(t, display));
      ys := ys[t := ROWS - 1];
      xs := xs[t := 0];
    }
  
    /** The scrolling loop of putc_scroll; it runs at most once. */
    method ScrollAt(base: int, t: int)
      requires Shape() && Window(base, t) && 0 <= t < TERMINALS
      modifies mem, `xs, `ys
      ensures Shape() && Abs() == old(Abs())[t := Scroll(old(Abs())[t])]
    {
      ghost var m0, x0, y0 := mem[..], xs, ys;
      while ys[t] >= ROWS
        invariant Shape()
        invariant ys[t] >= ROWS ==> mem[..] == m0 && xs == x0 && ys == y0
        invariant ys[t] < ROWS ==>
                    Abs() == LogicalScreens(m0, display, x0, y0)[t := Scroll(LogicalScreens(m0, display, x0, y0)[t])]
        decreases ys[t]
      {
        ShiftUpAt(base, t);
        WroteOne(m0, mem[..], display, x0, y0, t, Scroll(LogicalScreens(m0, display, x0, y0)[t]));
      }
    }

    /** One character at the cursor, which then advances. */
    method WriteAt(base: int, t: int, c: Byte)
      requires Shape() && Window(base, t) && 0 <= t < TERMINALS
      requires 0 <= xs[t] < COLS && 0 <= ys[t] < ROWS
      modifies mem, `xs, `ys
      ensures Shape()
      ensures var u := old(Abs())[t];
              Abs() == old(Abs())[t := Term(PutCell(u.bytes, Offset(u), c), (u.x + 1) % COLS, u.y + (u.x + 1) / COLS)]
    {
      hide Wrote;
      ghost var m0, x0, y0, u := mem[..], xs, ys, Abs()[t];
      StoreCell(base, t, COLS * ys[t] + xs[t], c);
      CellWrote(m0, mem[..], Base(t, display), Offset(u), c);
      xs := xs[t := xs[t] + 1];
      ys := ys[t := ys[t] + xs[t] / COLS];
      xs := xs[t := xs[t] % COLS];
      ghost var u' := Term(PutCell(u.bytes, Offset(u), c), (u.x + 1) % COLS, u.y + (u.x + 1) / COLS);
      WroteOne(m0, mem[..], display, x0, y0, t, u');
      assert xs == x0[t := (u.x + 1) % COLS];
      assert ys == y0[t := u.y + (u.x + 1) / COLS];
    }

    method NewlineAt(t: int)
      requires Shape() && 0 <= t < TERMINALS
      modifies `xs, `ys
      ensures Shape() && Abs() == old(Abs())[t := old(Abs())[t].(x := 0, y := old(Abs())[t].y + 1)]
    {
      ghost var u := Abs()[t].(x := 0, y := Abs()[t].y + 1);
      WroteOne(mem[..], mem[..], display, xs, ys, t, u);
      ys := ys[t := ys[t] + 1];
      xs := xs[t := 0];
    }

    method PutcAt(base: int, t: int, c: Byte)
      requires Valid() && Window(base, t) && 0 <= t < TERMINALS
      modifies mem, `xs, `ys
      ensures Valid() && Abs() == old(Abs())[t := Putc(old(Abs())[t], c)]
    {
      ghost var screens := Abs();
      if IsNewline(c) {
        NewlineAt(t);
        ScrollAt(base, t);
      } else {
        ScrollAt(base, t);
        assert xs[t] == Abs()[t].x && ys[t] == Abs()[t].y;
        WriteAt(base, t, c);
      }
      assert Abs() == screens[t := Putc(screens[t], c)];
    }

    /** putc_scroll */
    method PutcScroll(c: Byte)
      requires Valid()
      modifies mem, `xs, `ys
      ensures Valid() && Abs() == old(Abs())[active := Putc(old(Abs())[active], c)]
    {
      PutcAt(VIDEO, active, c);
    }

    /** putc_scroll_display */
    method PutcScrollDisplay(c: Byte)
      requires Valid()
      modifies mem, `xs, `ys
      ensures Valid() && Abs() == old(Abs())[display := Putc(old(Abs())[display], c)]
    {
      PutcAt(VIDEO_PHYSICAL, display, c);
    }

    /** puts_scroll */
    method PutsScroll(s: Bytes)
      requires Valid()
      modifies mem, `xs, `ys
      ensures Valid() && Abs() == old(Abs())[active := PutAll(old(Abs())[active], s)]
    {
      var i := 0;
      while i < |s|
        invariant 0 <= i <= |s| && Valid()
        invariant Abs() == old(Abs())[active := Abs()[active]]
        invariant PutAll(Abs()[active], s[i..]) == PutAll(old(Abs())[active], s)
      {
        PutcScroll(s[i]);
        i := i + 1;
      }
    }

    method StepBack()
      requires Valid() && Offset(Abs()[display]) > 0
      modifies mem, `xs, `ys
      ensures Valid() && Abs() == old(Abs())[display := Erase(old(Abs())[display])]
    {
      hide Wrote;
      ghost var m0, x0, y0, u := mem[..], xs, ys, Abs()[display];
      if xs[display] == 0 {
        xs := xs[display := COLS - 1];
        ys := ys[display := ys[display] - 1];
      } else {
        xs := xs[display := xs[display] - 1];
      }
      StoreCell(VIDEO_PHYSICAL, display, COLS * ys[display] + xs[display], SPACE);
      CellWrote(m0, mem[..], Base(display, display), Offset(u) - 1, SPACE);
      WroteOne(m0, mem[..], display, x0, y0, display, Erase(u));
      assert xs == x0[display := Erase(u).x] && ys == y0[display := Erase(u).y];
    }

    /** One byte below the window of the displayed frame is in terminal 2's backing page. */
    method StoreBelow(k: int, b: Byte)
      requires Valid() && PAGE - 2 <= k < PAGE
      modifies mem
      ensures Valid() && Abs() == if display == 2 then old(Abs()) else old(Abs())[2 := Poke(old(Abs())[2], k, b)]
    {
      DirectReaches(VIDEO + TERMINALS * PAGE_SIZE, VIDEO + TERMINALS * PAGE_SIZE, k);
      StoreOne(mem[..], display, xs, ys, VIDEO_PHYSICAL - PAGE + k, b);
      Store(VIDEO_PHYSICAL - PAGE + k, b);
    }

    /** From the origin the cursor leaves the screen, and the blank lands just below the displayed frame's window. */
    method StepOff()
      requires Valid() && xs[display] == ys[display] == 0
      modifies mem, `xs, `ys
      ensures Shape() && Abs() == Spilled(old(Abs()), display)
    {
      StoreBelow(PAGE - 2, SPACE);
      StoreBelow(PAGE - 1, ATTRIB);
      ghost var spilled := Abs();
      xs := xs[display := COLS - 1];
      ys := ys[display := ys[display] - 1];
      assert Abs() == spilled[display := spilled[display].(x := COLS - 1, y := -1)];
    }

    /** erase_last_ch_display: one cell back on the displayed screen, unless its cursor is at the origin. */
    method EraseDisplay()
      requires Valid()
      modifies mem, `xs, `ys
      ensures Shape()
      ensures Offset(old(Abs())[display]) > 0 ==>
                Valid() && Abs() == old(Abs())[display := Erase(old(Abs())[display])]
      ensures Offset(old(Abs())[display]) == 0 ==> Abs() == Spilled(old(Abs()), display)
    {
      assert Screens.Valid(Abs()[display]);
      if xs[display] == 0 && ys[display] == 0 { StepOff(); } else { StepBack(); }
    }

    /** The cursor reset of clear */
    method HomeDisplay()
      requires Valid()
      modifies `xs, `ys
      ensures Valid() && Abs() == old(Abs())[display := Homed(old(Abs())[display])]
    {
      ghost var u := Homed(Abs()[display]);
      WroteOne(mem[..], mem[..], display, xs, ys, display, u);
      xs := xs[display := 0];
      ys := ys[display := 0];
    }

    /** Iterations i to i + n - 1 of clear's loop, on whatever terminal is displayed. */
    method BlankDisplay(i: int, n: int)
      requires Valid() && 0 <= i && 0 <= n && i + n <= ROWS * COLS
      modifies mem
      ensures Valid() && Abs() == old(Abs())[display := Blanked(old(Abs())[display], i, n)]
    {
      ghost var m0, u := mem[..], Abs()[display];
      var k := 0;
      while k < n
        invariant 0 <= k <= n
        invariant Blanking(m0, mem[..], i, k)
      {
        BlankStep(m0, mem[..], i, k);
        StoreCell(VIDEO_PHYSICAL, display, i + k, SPACE);
        k := k + 1;
      }
      assert Page(mem[..], VIDEO) == Blanked(u, i, n).bytes;
      WroteOne(m0, mem[..], display, xs, ys, display, Blanked(u, i, n));
      assert xs[display := u.x] == xs && ys[display := u.y] == ys;
    }

    /** clear */
    method ClearDisplay()
      requires Valid()
      modifies mem, `xs, `ys
      ensures Valid() && Abs() == old(Abs())[display := Clear(old(Abs())[display])]
    {
      HomeDisplay();
      BlankDisplay(0, ROWS * COLS);
    }

    lemma UserReaches(low: int)
      requires Shape() && PAGE_SIZE <= low < LARGE_PAGE
      ensures tables.Translate(USER_WINDOW + low, true) ==
              Physical(UserFrame(low / PAGE_SIZE, active, display) * PAGE_SIZE + low % PAGE_SIZE)
    {
      tables.TranslateLive(USER_WINDOW + low, true);
    }

    /** A user-mode store through the window that vidmap opens, to any of its pages. Memory from 1 MB on holds
        no screen. */
    method UserStore(low: int, b: Byte)
      requires Valid() && PAGE_SIZE <= low < LARGE_PAGE
      modifies mem
      ensures Valid() && Abs() == UserStored(old(Abs()), low, b, active, display)
    {
      UserReaches(low);
      var a := tables.Translate(USER_WINDOW + low, true).address;
      if a < MEMORY {
        StoreOne(mem[..], display, xs, ys, a, b);
        mem[a] := b;
      }
    }

    /** A user-mode store into the page that vidmap hands out. */
    method UserPoke(k: int, b: Byte)
      requires Valid() && 0 <= k < PAGE
      modifies mem
      ensures Valid() && Abs() == old(Abs())[active := Poke(old(Abs())[active], k, b)]
    {
      UserStore(VIDEO + k, b);
    }

    /** set_active_terminal */
    method SetActive(t: int)
      requires Sized() && 0 <= t < TERMINALS
      modifies tables.table, tables.userVideo, `active
      ensures Shape() && active == t && Abs() == old(Abs())
    {
      tables.SetActiveTerminal(t, t == display);
      active := t;
    }

    /** The linear pages that set_disiplay_terminal copies between, and the frames behind them. */
    ghost predicate Direct(base: int, b: int) {
      (base == VIDEO_PHYSICAL && b == VIDEO) ||
      (base == b && base in {VIDEO + PAGE_SIZE, VIDEO + 2 * PAGE_SIZE, VIDEO + 3 * PAGE_SIZE})
    }

    lemma DirectApart(dst: int, db: int, src: int, sb: int)
      requires Direct(dst, db) && Direct(src, sb) && db != sb
      ensures 0 <= dst <= MEMORY - PAGE && 0 <= src <= MEMORY - PAGE
      ensures 0 <= db <= MEMORY - PAGE && 0 <= sb <= MEMORY - PAGE && (sb + PAGE <= db || db + PAGE <= sb)
    {
    }

    lemma DirectReaches(base: int, b: int, k: int)
      requires Shape() && Direct(base, b) && 0 <= k < PAGE
      ensures tables.Translate(base + k, false) == Physical(b + k)
    {
      tables.TranslateLive(base + k, false);
      assert (base + k) / PAGE_SIZE == base / PAGE_SIZE;
    }

    /** memcpy of one page, a byte at a time; `Memory.Memcpy` shows the doubleword copy does the same. */
    method CopyPage(dst: int, src: int, ghost db: int, ghost sb: int)
      requires Shape() && Direct(dst, db) && Direct(src, sb) && db != sb
      modifies mem
      ensures Copied(old(mem[..]), mem[..], db, sb, PAGE)
    {
      ghost var m0 := mem[..];
      var i := 0;
      while i < PAGE
        invariant 0 <= i <= PAGE
        invariant Copied(m0, mem[..], db, sb, i)
      {
        CopyOne(dst, src, i, db, sb, m0);
        i := i + 1;
      }
    }

    method CopyOne(dst: int, src: int, i: int, ghost db: int, ghost sb: int, ghost m0: Bytes)
      requires Shape() && Direct(dst, db) && Direct(src, sb) && db != sb && 0 <= i < PAGE
      requires Copied(m0, mem[..], db, sb, i)
      modifies mem
      ensures Copied(m0, mem[..], db, sb, i + 1)
    {
      hide Copied, Direct;
      DirectApart(dst, db, src, sb);
      DirectReaches(src, sb, i);
      DirectReaches(dst, db, i);
      var b := Load(src + i);
      ghost var m1 := mem[..];
      CopiedStep(m0, m1, db, sb, i);
      Store(dst + i, b);
      assert mem[..] == m1[db + i := m1[sb + i]];
    }

    /** The two copies of set_disiplay_terminal: save the displayed page, then load terminal t's. */
    method SwapPages(t: int)
      requires Shape() && 0 <= t < TERMINALS
      modifies mem
      ensures LogicalScreens(mem[..], t, xs, ys) == old(Abs())
    {
      ghost var m0 := mem[..];
      CopyPage(VIDEO + PAGE_SIZE * (display + 1), VIDEO_PHYSICAL, VIDEO + PAGE_SIZE * (display + 1), VIDEO);
      ghost var m1 := mem[..];
      CopyPage(VIDEO_PHYSICAL, VIDEO + PAGE_SIZE * (t + 1), VIDEO, VIDEO + PAGE_SIZE * (t + 1));
      SwitchKeepsScreens(m0, m1, mem[..], display, t, xs, ys);
    }

    /** set_disiplay_terminal */
    method SetDisplay(t: int)
      requires Valid() && 0 <= t < TERMINALS
      modifies mem, tables.table, tables.userVideo, `display, `active
      ensures Valid() && display == t && active == old(active) && Abs() == old(Abs())
    {
      SwapPages(t);
      display := t;
      SetActive(active);
    }
  }
}
