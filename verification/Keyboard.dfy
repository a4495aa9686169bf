/** keyboard.c in place: scancodes, the three line buffers, and the terminal read and write routines. */
module Keyboard {
  import opened Words
  import opened Screens
  import opened Console
  import opened TerminalRuns
  import opened LineEditor
  import opened Processes
  import opened Kernel
  import opened FileSystem
  import opened Loader
  import opened Execution

  const KEYS := 128
  const LINE_BUFFER := 129
  const PRINT_LIM := 2050
  const BACKSPACE := 14
  const ENTER := 28
  const LEFT_CONTROL := 29
  const KEY_L := 38
  const LEFT_SHIFT := 42
  const RIGHT_SHIFT := 54
  const LEFT_ALT := 56
  const CAPS_LOCK := 58
  const F1 := 59

  /** scancodes_map */
  function Plain(c: int): Byte {
    if 2 <= c <= 10 then 49 + (c - 2)
    else if c == 11 then 48
    else if 16 <= c <= 25 then [113, 119, 101, 114, 116, 121, 117, 105, 111, 112][c - 16]
    else if 30 <= c <= 38 then [97, 115, 100, 102, 103, 104, 106, 107, 108][c - 30]
    else if 44 <= c <= 53 then [122, 120, 99, 118, 98, 110, 109, 44, 46, 47][c - 44]
    else if 71 <= c <= 82 then [55, 56, 57, 45, 52, 53, 54, 43, 49, 50, 51, 48][c - 71]
    else if c == 12 then 45
    else if c == 13 then 61
    else if c == 15 then 9
    else if c == 26 then 91
    else if c == 27 then 93
    else if c == ENTER then NEWLINE
    else if c == 39 then 59
    else if c == 40 then 39
    else if c == 43 then 92
    else if c == 57 then SPACE
    else NUL
  }

  /** special_convert_map: letters change case, some keys have a shifted sign, all others give NUL. */
  function Special(b: Byte): Byte {
    if 97 <= b <= 122 then b - 32
    else if 65 <= b <= 90 then b + 32
    else if 48 <= b <= 57 then [41, 33, 64, 35, 36, 37, 94, 38, 42, 40][b - 48]
    else if b == 45 then 95
    else if b == 61 then 43
    else if b == 91 then 123
    else if b == 93 then 125
    else if b == 92 then 124
    else if b == 59 then 58
    else if b == 39 then 34
    else if b == 44 then 60
    else if b == 46 then 62
    else if b == 47 then 63
    else NUL
  }

  datatype Mods = Mods(pressed: seq<bool>, caps: bool)

  /** character_convert */
  function Convert(m: Mods, c: int): Byte
    requires |m.pressed| == KEYS
  {
    var b := Plain(c);
    if b == NUL then NUL
    else
      var b1 := if m.caps && 97 <= b <= 122 then Special(b) else b;
      if m.pressed[LEFT_SHIFT] || m.pressed[RIGHT_SHIFT] then Special(b1) else b1
  }

  function Press(m: Mods, c: int): Mods
    requires |m.pressed| == KEYS && 0 <= c < 256
  {
    if c >= KEYS then m.(pressed := m.pressed[c - KEYS := false])
    else Mods(m.pressed[c := true], if c == CAPS_LOCK then !m.caps else m.caps)
  }

  /** Alt with F1, F2 or F3 (and not the L of Ctrl-L) selects terminal c - F1. */
  predicate Switches(m: Mods, c: int)
    requires |m.pressed| == KEYS
  {
    F1 <= c <= F1 + 2 && m.pressed[LEFT_ALT]
  }

  /** The stroke a scancode makes on the displayed line; m is the state with this key already down. */
  function FirstStroke(m: Mods, c: int): Option<Stroke>
    requires |m.pressed| == KEYS
  {
    if c == KEY_L && m.pressed[LEFT_CONTROL] then Some(Wipe)
    else if 0 <= c < KEYS && !m.pressed[LEFT_ALT] && Plain(c) != NUL then Some(Type(Convert(m, c)))
    else None
  }

  /** Enter and backspace act as well when their key has been echoed, or Alt is down. */
  function LastStroke(c: int): Option<Stroke> {
    if c == ENTER then Some(Submit) else if c == BACKSPACE then Some(Stroke.Backspace) else None
  }

  ghost function Pressed(d: Desk, k: Option<Stroke>): (r: Desk)
    requires Ahead(d)
    ensures Ahead(r)
  {
    match k
    case None => d
    case Some(stroke) =>
      ActKeepsAhead(d, Key(stroke));
      LineEditor.Do(d, Key(stroke))
  }

  function AsSeq(k: Option<Stroke>): seq<Stroke> { if k.None? then [] else [k.value] }

  /** All strokes of a scancode that does not switch terminals. */
  function StrokesOf(m: Mods, c: int): seq<Stroke>
    requires |m.pressed| == KEYS
  {
    AsSeq(FirstStroke(m, c)) + AsSeq(LastStroke(c))
  }

  /** One scancode on the desk. */
  ghost function Keyed(d: Desk, m: Mods, c: int): (r: Desk)
    requires Ahead(d) && |m.pressed| == KEYS
    ensures Ahead(r)
  {
    Pressed(Pressed(d, FirstStroke(m, c)), LastStroke(c))
  }

  function Zeros(n: int): (r: Bytes)
    requires n >= 0
    ensures |r| == n && forall i :: 0 <= i < n ==> r[i] == NUL
  {
    seq(n, _ => NUL)
  }

  /** A line in a zeroed buffer of size n. */
  function Pad(line: Bytes, n: int): (r: Bytes)
    requires |line| <= n
    ensures |r| == n && r[..|line|] == line
  {
    line + Zeros(n - |line|)
  }

  /** strlen of a memory area that is known to hold a NUL. */
  function StrlenOf(b: Bytes): (r: int)
    requires NUL in b
    ensures 0 <= r < |b| && b[r] == NUL && forall i :: 0 <= i < r ==> b[i] != NUL
    decreases |b|
  {
    if b[0] == NUL then 0 else 1 + StrlenOf(b[1..])
  }

  /** The line buffers hold their lines and zeros beyond the cursors. */
  predicate Buffered(buffers: seq<Bytes>, cursors: seq<int>) {
    && |buffers| == |cursors| == TERMINALS
    && forall t :: 0 <= t < TERMINALS ==>
         && 0 <= cursors[t] <= LIMIT && |buffers[t]| == LINE_BUFFER
         && buffers[t] == Pad(buffers[t][..cursors[t]], LINE_BUFFER)
  }

  function LinesOf(buffers: seq<Bytes>, cursors: seq<int>): (r: seq<Bytes>)
    requires Buffered(buffers, cursors)
    ensures |r| == TERMINALS && forall t :: 0 <= t < TERMINALS ==> r[t] == buffers[t][..cursors[t]] && |r[t]| <= LIMIT
  {
    [buffers[0][..cursors[0]], buffers[1][..cursors[1]], buffers[2][..cursors[2]]]
  }

  lemma SetLine(buffers: seq<Bytes>, cursors: seq<int>, t: int, line: Bytes)
    requires Buffered(buffers, cursors) && 0 <= t < TERMINALS && |line| <= LIMIT
    ensures var b, c := buffers[t := Pad(line, LINE_BUFFER)], cursors[t := |line|];
            Buffered(b, c) && LinesOf(b, c) == LinesOf(buffers, cursors)[t := line]
  {
  }

  /** Appending a character or dropping the last one in place. */
  lemma PadAppend(line: Bytes, c: Byte)
    requires |line| < LIMIT
    ensures Pad(line, LINE_BUFFER)[|line| := c] == Pad(line + [c], LINE_BUFFER)
  {
  }

  lemma PadDrop(line: Bytes)
    requires 0 < |line| <= LIMIT
    ensures Pad(line, LINE_BUFFER)[|line| - 1 := NUL] == Pad(line[..|line| - 1], LINE_BUFFER)
  {
  }

  class Device {
    const kernel: Core
    const video: Video
    var mods: Mods                  // pressed_key and cap_status
    var buffers: seq<Bytes>         // keyboard_buffer
    var prints: seq<Bytes>          // print_buffer
    var cursors: seq<int>           // cursor_ind
    var ready: seq<bool>            // terminal_read_ready

    /** keyboard_init */
    constructor (kernel: Core)
      requires kernel.Valid()
      ensures this.kernel == kernel && Valid() && cursors == [0, 0, 0] && ready == [false, false, false]
    {
      this.kernel := kernel;
      video := kernel.video;
      mods := Mods(seq(KEYS, _ => false), false);
      var empty := Pad([], LINE_BUFFER);
      buffers := [empty, empty, empty];
      var blank := Pad([], PRINT_LIM);
      prints := [blank, blank, blank];
      cursors, ready := [0, 0, 0], [false, false, false];
    }

    ghost predicate Lined()
      reads this
    {
      && |mods.pressed| == KEYS
      && Buffered(buffers, cursors)
      && |prints| == |ready| == TERMINALS
      && (forall t :: 0 <= t < TERMINALS ==> |prints[t]| == PRINT_LIM)
    }

    ghost function DeskOf(): Desk
      requires Lined() && video.Valid()
      reads this, video, video.mem, video.tables.dir, video.tables.table, video.tables.userVideo
    {
      Desk(WorldOf(video), LinesOf(buffers, cursors))
    }

    /** Every cursor is ahead of its line. */
    ghost predicate Editing()
      reads this, video, video.mem, video.tables.dir, video.tables.table, video.tables.userVideo
    {
      Lined() && video.Valid() && Ahead(DeskOf())
    }

    ghost predicate Valid()
      reads this, kernel, kernel.status, kernel.pcbs
      reads video, video.mem, video.tables.dir, video.tables.table, video.tables.userVideo
    {
      kernel.video == video && kernel.Valid() && Editing()
    }

    lemma SameVideo()
      requires Valid()
      ensures kernel.video == video
    {
    }

    method AppendToLine(t: int, c: Byte)
      requires Buffered(buffers, cursors) && 0 <= t < TERMINALS && cursors[t] < LIMIT
      modifies this`buffers, this`cursors
      ensures Buffered(buffers, cursors)
      ensures LinesOf(buffers, cursors) == old(LinesOf(buffers, cursors))[t := old(LinesOf(buffers, cursors))[t] + [c]]
    {
      ghost var line := LinesOf(buffers, cursors)[t];
      PadAppend(line, c);
      SetLine(buffers, cursors, t, line + [c]);
      var buffer: Bytes := buffers[t];
      buffer := buffer[cursors[t] := c];
      buffers := buffers[t := buffer];
      cursors := cursors[t := cursors[t] + 1];
    }

    method DropFromLine(t: int)
      requires Buffered(buffers, cursors) && 0 <= t < TERMINALS && cursors[t] > 0
      modifies this`buffers, this`cursors
      ensures Buffered(buffers, cursors)
      ensures var line := old(LinesOf(buffers, cursors))[t];
              line != [] && LinesOf(buffers, cursors) == old(LinesOf(buffers, cursors))[t := line[..|line| - 1]]
    {
      ghost var line := LinesOf(buffers, cursors)[t];
      PadDrop(line);
      SetLine(buffers, cursors, t, line[..|line| - 1]);
      cursors := cursors[t := cursors[t] - 1];
      var buffer: Bytes := buffers[t];
      buffer := buffer[cursors[t] := NUL];
      buffers := buffers[t := buffer];
    }

    /** What a stroke does to the displayed line and to the displayed screen. */
    twostate predicate Did(k: Stroke)
      requires old(Editing()) && Buffered(buffers, cursors) && video.Sized()
      reads this, video, video.mem, video.tables.dir, video.tables.table, video.tables.userVideo
    {
      var t, lines, screens := video.display, old(LinesOf(buffers, cursors)), old(video.Abs());
      && video.display == old(video.display) && video.active == old(video.active)
      && Screens.Valid(screens[t]) && Offset(screens[t]) >= |lines[t]|
      && LinesOf(buffers, cursors) == lines[t := Edit(lines[t], k)]
      && video.Abs() == screens[t := Echo(screens[t], lines[t], k)]
    }

    /** Seen from the desk, that is one key stroke. */
    twostate lemma DidKey(k: Stroke)
      requires old(Editing()) && Lined() && video.Valid() && Did(k)
      ensures Editing() && DeskOf() == LineEditor.Do(old(DeskOf()), Key(k))
    {
      ActKeepsAhead(old(DeskOf()), Key(k));
    }

    /** A printable key: stored and echoed unless the line is full. */
    method TypeKey(c: Byte)
      requires Editing()
      modifies this`buffers, this`cursors, video.mem, video`xs, video`ys
      ensures Lined() && video.Valid() && Did(Type(c))
    {
      var t := video.display;
      assert Screens.Valid(video.Abs()[t]) && Offset(video.Abs()[t]) >= |LinesOf(buffers, cursors)[t]|;
      if cursors[t] >= LIMIT { return; }
      AppendToLine(t, c);
      video.PutcScrollDisplay(c);
    }

    method BackspaceKey()
      requires Editing()
      modifies this`buffers, this`cursors, video.mem, video`xs, video`ys
      ensures Lined() && video.Valid() && Did(Stroke.Backspace)
    {
      var t := video.display;
      assert Screens.Valid(video.Abs()[t]) && Offset(video.Abs()[t]) >= |LinesOf(buffers, cursors)[t]|;
      if cursors[t] == 0 { return; }
      DropFromLine(t);
      video.EraseDisplay();
    }

    /** Ctrl-L */
    method WipeKey()
      requires Editing()
      modifies this`buffers, this`cursors, video.mem, video`xs, video`ys
      ensures Lined() && video.Valid() && Did(Wipe)
    {
      var t := video.display;
      assert Screens.Valid(video.Abs()[t]) && Offset(video.Abs()[t]) >= |LinesOf(buffers, cursors)[t]|;
      video.ClearDisplay();
      SetLine(buffers, cursors, t, []);
      buffers := buffers[t := Zeros(LINE_BUFFER)];
      cursors := cursors[t := 0];
    }

    /** Enter: the line goes to the print buffer, zero-filled, and the line buffer starts afresh. */
    method EnterKey()
      requires Editing()
      modifies this`buffers, this`cursors, this`prints, this`ready
      ensures Lined() && video.Valid() && Did(Submit)
      ensures prints == old(prints)[video.display := Pad(old(LinesOf(buffers, cursors))[video.display], PRINT_LIM)]
      ensures ready == old(ready)[video.display := true]
    {
      var t := video.display;
      assert Screens.Valid(video.Abs()[t]) && Offset(video.Abs()[t]) >= |LinesOf(buffers, cursors)[t]|;
      var blank := Zeros(PRINT_LIM);
      prints := prints[t := buffers[t] + blank[LINE_BUFFER..]];
      assert prints[t] == Pad(LinesOf(buffers, cursors)[t], PRINT_LIM);
      SetLine(buffers, cursors, t, []);
      buffers := buffers[t := Zeros(LINE_BUFFER)];
      ready := ready[t := true];
      cursors := cursors[t := 0];
    }

    /** Ctrl-L or a printable key. */
    method FirstKey(c: int)
      requires Editing() && 0 <= c < KEYS
      modifies this`buffers, this`cursors, video.mem, video`xs, video`ys
      ensures Editing() && DeskOf() == Pressed(old(DeskOf()), FirstStroke(mods, c))
    {
      if c == KEY_L && mods.pressed[LEFT_CONTROL] {
        WipeKey();
        DidKey(Wipe);
      } else if !mods.pressed[LEFT_ALT] && Plain(c) != NUL {
        TypeKey(Convert(mods, c));
        DidKey(Type(Convert(mods, c)));
      }
    }

    /** Enter and backspace act even when the key has been echoed, or Alt is down; d is the desk before the key. */
    method LastKey(c: int, ghost d: Desk)
      requires Editing() && Ahead(d) && DeskOf() == Pressed(d, FirstStroke(mods, c))
      modifies this`buffers, this`cursors, this`prints, this`ready, video.mem, video`xs, video`ys
      ensures Editing() && DeskOf() == Keyed(d, mods, c)
      ensures prints == HandOver(old(prints), d.lines, d.world.display, mods, c)
      ensures ready == if c == ENTER then old(ready)[video.display := true] else old(ready)
    {
      PressedEdits(d, FirstStroke(mods, c));
      if c == ENTER {
        EnterKey();
        DidKey(Submit);
      } else if c == BACKSPACE {
        BackspaceKey();
        DidKey(Stroke.Backspace);
      }
    }

    /** The keys that edit the displayed line. */
    method EditKey(c: int)
      requires Editing() && 0 <= c < KEYS
      modifies this`buffers, this`cursors, this`prints, this`ready, video.mem, video`xs, video`ys
      ensures Editing() && DeskOf() == Keyed(old(DeskOf()), mods, c)
      ensures prints == HandOver(old(prints), old(DeskOf()).lines, old(video.display), mods, c)
      ensures ready == if c == ENTER then old(ready)[video.display := true] else old(ready)
    {
      ghost var d := DeskOf();
      FirstKey(c);
      LastKey(c, d);
    }

    method EditStep(c: int)
      requires Valid() && 0 <= c < KEYS
      modifies this`buffers, this`cursors, this`prints, this`ready, video.mem, video`xs, video`ys
      ensures Valid() && DeskOf() == Keyed(old(DeskOf()), mods, c) && kernel.View() == old(kernel.View())
      ensures prints == HandOver(old(prints), old(DeskOf()).lines, old(video.display), mods, c)
      ensures ready == if c == ENTER then old(ready)[video.display := true] else old(ready)
    {
      hide Keyed, HandOver;
      EditKey(c);
    }

    method SwitchKey(t: int, img: Bytes, tempBuf: array<Byte>, window: array<Byte>)
      requires Valid() && 0 <= t < TERMINALS && Loading(img, tempBuf, window)
      modifies kernel, kernel.status, kernel.pcbs, tempBuf, window
      modifies video, video.mem, video.tables.dir, video.tables.table, video.tables.userVideo
      ensures Editing() && DeskOf().lines == old(DeskOf()).lines
      ensures video.Abs() == old(video.Abs()) && video.display == t
      ensures kernel.View() == if t == 0 then old(kernel.View()).(view := SetDisplay(old(kernel.View()).view, 0))
                               else SpawnShell(old(kernel.View()), t, ProbeOf(img, SHELL, old(tempBuf[..])))
    {
      hide SpawnShell, ProbeOf;
      if t > 0 { SpawnShows(kernel.View(), t, ProbeOf(img, SHELL, tempBuf[..])); }
      AltFunctionKey(kernel, img, tempBuf, window, t);
      assert kernel.View().view.display == t;
    }

    /** execute leaves lines and screens alone. */
    method Launch(cmd: Bytes, img: Bytes, tempBuf: array<Byte>, window: array<Byte>, t: int, isTerminal: bool)
      requires Valid() && Loading(img, tempBuf, window) && NUL !in cmd
      requires 0 <= t < TERMINALS && (!isTerminal ==> kernel.current != NONE)
      modifies kernel, kernel.status, kernel.pcbs, tempBuf, window
      modifies video, video.tables.dir, video.tables.table, video.tables.userVideo
      ensures Editing() && DeskOf().lines == old(DeskOf()).lines && video.Abs() == old(video.Abs())
      ensures Shape(kernel.View()) ==> Valid()
      ensures kernel.View() == ExecuteOn(old(kernel.View()), ProbeOf(img, cmd, old(tempBuf[..])), t, isTerminal)
    {
      hide ExecuteOn, ProbeOf, Ahead;
      ghost var d := DeskOf();
      var _ := ExecuteCommand(kernel, img, cmd, tempBuf, window, t, isTerminal);
      StillAhead(d, DeskOf());
    }

    /** The image, execute's local buffer and the program window, all apart from video memory. */
    ghost predicate Loading(img: Bytes, tempBuf: array<Byte>, window: array<Byte>) {
      && Typed(img) && tempBuf.Length >= HEADER && window.Length == WINDOW
      && tempBuf != window && tempBuf != video.mem && window != video.mem
    }

    /** scancode_processing. Only a shell whose loading goes wrong before any process has run can leave a process
        table that is not in shape. */
    method Scancode(c: int, img: Bytes, tempBuf: array<Byte>, window: array<Byte>)
      requires Valid() && 0 <= c < 256 && Loading(img, tempBuf, window)
      modifies this, kernel, kernel.status, kernel.pcbs, tempBuf, window
      modifies video, video.mem, video.tables.dir, video.tables.table, video.tables.userVideo
      ensures Editing() && mods == Press(old(mods), c) && (Shape(kernel.View()) ==> Valid())
      ensures !Switches(mods, c) ==>
                && DeskOf() == Keyed(old(DeskOf()), mods, c) && kernel.View() == old(kernel.View())
                && prints == HandOver(old(prints), old(DeskOf()).lines, old(video.display), mods, c)
                && ready == if c == ENTER then old(ready)[video.display := true] else old(ready)
      ensures Switches(mods, c) ==>
                && prints == old(prints) && ready == old(ready)
                && DeskOf().lines == old(DeskOf()).lines && video.Abs() == old(video.Abs()) && video.display == c - F1
                && kernel.View() == if c == F1 then old(kernel.View()).(view := SetDisplay(old(kernel.View()).view, 0))
                                    else SpawnShell(old(kernel.View()), c - F1, ProbeOf(img, SHELL, old(tempBuf[..])))
    {
      hide SpawnShell, ProbeOf, Keyed, HandOver;
      mods := Press(mods, c);
      if c >= KEYS {
        ReleaseDoesNothing(prints, DeskOf(), mods, c);
        return;
      }
      if Switches(mods, c) {
        SwitchKey(c - F1, img, tempBuf, window);
      } else {
        EditStep(c);
      }
    }

    method PrintText(buf: Bytes)
      requires Editing() && |buf| < PRINT_LIM
      modifies this`prints, video.mem, video`xs, video`ys
      ensures Editing() && DeskOf().lines == old(DeskOf()).lines
      ensures video.Abs() == old(video.Abs())[video.active := PutAll(old(video.Abs())[video.active], buf)]
      ensures prints == old(prints)[video.active := Overwritten(old(prints)[video.active], buf)]
    {
      hide PutAll, Overwritten, Buffered;
      WriteIsAhead(DeskOf(), buf);
      var t := video.active;
      prints := prints[t := Overwritten(prints[t], buf)];
      video.PutsScroll(prints[t][..|buf|]);
    }

    /** terminal_write, for fewer than 2050 bytes */
    method TerminalWrite(buf: Bytes) returns (count: int)
      requires Valid() && |buf| < PRINT_LIM
      modifies this`prints, video.mem, video`xs, video`ys
      ensures Valid() && count == |buf| && DeskOf().lines == old(DeskOf()).lines
      ensures video.Abs() == old(video.Abs())[video.active := PutAll(old(video.Abs())[video.active], buf)]
      ensures prints == old(prints)[video.active := Overwritten(old(prints)[video.active], buf)]
    {
      hide PutAll, Overwritten, Ahead;
      PrintText(buf);
      return |buf|;
    }

    /** Part of terminal_read's memcpy: it runs with interrupts on, so another part may see another line. */
    method CopyLine(buf: array<Byte>, done: int, n: int)
      requires Lined() && 0 <= video.active < TERMINALS
      requires 0 <= done && 0 <= n && done + n <= PRINT_LIM && done + n <= buf.Length
      modifies buf
      ensures buf[..] == CopiedPart(old(buf[..]), prints[video.active], done, n)
    {
      var t := video.active;
      var i := 0;
      while i < n
        invariant 0 <= i <= n
        invariant forall j :: 0 <= j < buf.Length ==>
                    buf[j] == if done <= j < done + i then prints[t][j] else old(buf[j])
      {
        buf[done + i] := prints[t][done + i];
        i := i + 1;
      }
    }

    /** The end of terminal_read: the mark is cleared, whatever the buffer holds by now, and the C length returned. */
    method FinishRead(buf: array<Byte>) returns (n: int)
      requires Lined() && 0 <= video.active < TERMINALS && NUL in buf[..]
      modifies this`ready
      ensures n == StrlenOf(buf[..]) && ready == old(ready)[video.active := false]
    {
      ready := ready[video.active := false];
      n := 0;
      while buf[n] != NUL
        invariant 0 <= n <= StrlenOf(buf[..])
        decreases StrlenOf(buf[..]) - n
      {
        n := n + 1;
      }
    }
  }

  /** The caller's memory after bytes done to done + n - 1 of the print buffer were copied. */
  function CopiedPart(mem: Bytes, text: Bytes, done: int, n: int): (r: Bytes)
    requires 0 <= done && 0 <= n && done + n <= |text| && done + n <= |mem|
    ensures |r| == |mem|
  {
    mem[..done] + text[done..done + n] + mem[done + n..]
  }

  /** The line Enter hands over: the displayed line after the key's own character. */
  function Handed(line: Bytes, m: Mods): (r: Bytes)
    requires |line| <= LIMIT && |m.pressed| == KEYS
    ensures |r| <= LIMIT
  {
    EditAll(line, AsSeq(FirstStroke(m, ENTER)))
  }

  /** The three lines after a key that is not a terminal switch, and the print buffers. */
  function EditLines(lines: seq<Bytes>, display: int, m: Mods, c: int): (r: seq<Bytes>)
    requires LinesFit(lines) && 0 <= display < TERMINALS && |m.pressed| == KEYS
    ensures LinesFit(r)
  {
    lines[display := EditAll(lines[display], StrokesOf(m, c))]
  }

  function HandOver(prints: seq<Bytes>, lines: seq<Bytes>, display: int, m: Mods, c: int): (r: seq<Bytes>)
    requires LinesFit(lines) && 0 <= display < TERMINALS && |m.pressed| == KEYS && |prints| == TERMINALS
    ensures |r| == TERMINALS
  {
    if c == ENTER then prints[display := Pad(Handed(lines[display], m), PRINT_LIM)] else prints
  }

  predicate LinesFit(lines: seq<Bytes>) {
    |lines| == TERMINALS && forall t :: 0 <= t < TERMINALS ==> |lines[t]| <= LIMIT
  }

  lemma PressedEdits(d: Desk, k: Option<Stroke>)
    requires Ahead(d)
    ensures var t := d.world.display;
            && Pressed(d, k).world.display == t && Pressed(d, k).world.active == d.world.active
            && Pressed(d, k).lines == d.lines[t := EditAll(d.lines[t], AsSeq(k))]
  {
  }

  /** Seen from the desk, a key edits the displayed line by its strokes. */
  lemma KeyEdits(d: Desk, m: Mods, c: int)
    requires Ahead(d) && |m.pressed| == KEYS
    ensures Keyed(d, m, c).lines == EditLines(d.lines, d.world.display, m, c)
    ensures Keyed(d, m, c).world.display == d.world.display && Keyed(d, m, c).world.active == d.world.active
  {
    var k1, k2 := FirstStroke(m, c), LastStroke(c);
    PressedEdits(d, k1);
    PressedEdits(Pressed(d, k1), k2);
    EditAllOn(d.lines[d.world.display], AsSeq(k1), AsSeq(k2));
  }

  lemma ReleaseDoesNothing(prints: seq<Bytes>, d: Desk, m: Mods, c: int)
    requires Ahead(d) && |m.pressed| == KEYS && |prints| == TERMINALS && c >= KEYS
    ensures Keyed(d, m, c) == d && HandOver(prints, d.lines, d.world.display, m, c) == prints
  {
  }

  /** A print buffer after a write. */
  function Overwritten(text: Bytes, buf: Bytes): (r: Bytes)
    requires |buf| < |text|
    ensures |r| == |text| && r[..|buf|] == buf && r[|buf|] == NUL
  {
    buf + [NUL] + text[|buf| + 1..]
  }

  /** That character is a newline unless Alt or Shift is down or the line is full; Shift makes it a NUL. */
  lemma HandedIs(line: Bytes, m: Mods)
    requires |line| <= LIMIT && |m.pressed| == KEYS
    ensures Handed(line, m) == if m.pressed[LEFT_ALT] || |line| == LIMIT then line
                               else line + [if m.pressed[LEFT_SHIFT] || m.pressed[RIGHT_SHIFT] then NUL else NEWLINE]
  {
    var k := FirstStroke(m, ENTER);
    assert k.Some? ==> EditAll(line, [k.value]) == Edit(line, k.value);
  }

  /** A read of a line that Enter handed over returns its length exactly when no NUL was typed into the part
      copied and either the count exceeds the length or the caller's old bytes happen to end there. */
  lemma ReadReturnsLengthIff(line: Bytes, count: int, rest: Bytes)
    requires |line| <= LIMIT && 0 <= count <= PRINT_LIM && NUL in rest
    ensures var mem := Pad(line, PRINT_LIM)[..count] + rest;
            var part := if count > |line| then line else line[..count];
            && NUL in mem
            && (StrlenOf(mem) == |line| <==> NUL !in part && (count > |line| || count + StrlenOf(rest) == |line|))
            && (NUL !in line && count > |line| ==> mem[..|line|] == line)
  {
    var mem := Pad(line, PRINT_LIM)[..count] + rest;
    var part := if count > |line| then line else line[..count];
    var k := StrlenOf(rest);
    assert mem[count + k] == rest[k] == NUL;
    assert mem[..|part|] == part;
    if NUL in part {
      var i :| 0 <= i < |part| && part[i] == NUL;
      assert mem[i] == NUL;
    } else {
      forall i | 0 <= i < |part| ensures mem[i] != NUL { assert mem[i] == part[i] && part[i] in part; }
      if count > |line| {
        StrlenIs(mem, |line|);
      } else {
        forall i | count <= i < count + k ensures mem[i] != NUL { assert mem[i] == rest[i - count]; }
        StrlenIs(mem, count + k);
      }
    }
  }

  lemma StrlenIs(b: Bytes, n: int)
    requires 0 <= n < |b| && b[n] == NUL && forall i :: 0 <= i < n ==> b[i] != NUL
    ensures NUL in b && StrlenOf(b) == n
  {
    assert b[n] in b;
  }
}
