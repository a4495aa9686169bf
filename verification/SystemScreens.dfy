/** What whole runs of the machine show: each screen is made by the keys typed while it is displayed, the output of its
    own terminal's processes, stores into its page, and the clear of halted roots that hits it. */
module SystemScreens {
  import opened Words
  import opened Paging
  import opened Screens
  import opened Console
  import opened CallStacks
  import opened FileSystem
  import opened LineEditor
  import opened Keyboard
  import opened System
  import FileCalls
  import opened SystemRuns
  import opened TypedLines
  import opened Scrollback
  import TerminalRuns

  function DeskOf(y: Sys, screens: seq<Term>): Desk {
    Desk(TerminalRuns.World(screens, y.procs.view.active, y.procs.view.display), y.lines)
  }

  /** Every cursor is on its screen and ahead of its line. */
  predicate Visible(y: Sys, screens: seq<Term>) { Typing(y) && Ahead(DeskOf(y, screens)) }

  /** The screens after an event. */
  ghost function Show(img: Bytes, y: Sys, screens: seq<Term>, e: Event): (r: seq<Term>)
    requires GoodInodes(img) && CanDo(img, y, e) && Visible(y, screens)
    ensures |r| == TERMINALS
  {
    var active, display := y.procs.view.active, y.procs.view.display;
    match e
    case RootClear => screens[display := Homed(screens[display])]
    case ClearCells(n) => screens[display := Blanked(screens[display], y.wipe.value, n)]
    case Scan(c, _) => ShowKey(y, screens, c)
    case Write(buf) => screens[active := PutAll(screens[active], buf)]
    case Poke(low, b) => UserStored(screens, low, b, active, display)
    case _ => screens
  }

  ghost function ShowKey(y: Sys, screens: seq<Term>, c: int): (r: seq<Term>)
    requires Visible(y, screens) && 0 <= c < 256
    ensures |r| == TERMINALS
  {
    var m := Press(y.mods, c);
    if Switches(m, c) then screens else Keyed(DeskOf(y, screens), m, c).world.screens
  }

  /** The event does not start a clear over a line being edited. */
  predicate Tidy(y: Sys, e: Event)
    requires Typing(y)
  {
    e.RootClear? ==> y.lines[y.procs.view.display] == []
  }

  lemma KeyIsVisible(img: Bytes, y: Sys, screens: seq<Term>, c: int, junk: Bytes)
    requires GoodInodes(img) && CanDo(img, y, Scan(c, junk)) && Visible(y, screens)
    requires Typing(Advance(img, y, Scan(c, junk)))
    ensures Visible(Advance(img, y, Scan(c, junk)), ShowKey(y, screens, c))
  {
    var m := Press(y.mods, c);
    if !Switches(m, c) {
      KeyEdits(DeskOf(y, screens), m, c);
      assert DeskOf(Advance(img, y, Scan(c, junk)), ShowKey(y, screens, c)) == Keyed(DeskOf(y, screens), m, c);
    }
  }

  /** Exactly the tidy events keep every cursor ahead of its line. */
  lemma VisibleIff(img: Bytes, y: Sys, screens: seq<Term>, e: Event)
    requires GoodInodes(img) && CanDo(img, y, e) && Visible(y, screens) && Typing(Advance(img, y, e))
    ensures Visible(Advance(img, y, e), Show(img, y, screens, e)) <==> Tidy(y, e)
  {
    hide FileCalls.Inv, Readers;
    var y', screens' := Advance(img, y, e), Show(img, y, screens, e);
    match e {
      case RootClear => RootClearIff(DeskOf(y, screens));
      case Scan(c, junk) => KeyIsVisible(img, y, screens, c, junk);
      case Write(buf) => WriteIsAhead(DeskOf(y, screens), buf);
      case ClearCells(n) => ActKeepsAhead(DeskOf(y, screens), Act.ClearCells(y.wipe.value, n));
      case Poke(_, _) => PokeIsVisible(y, screens, e);
      case _ => StillAhead(DeskOf(y, screens), DeskOf(y', screens'));
    }
  }

  lemma PokeIsVisible(y: Sys, screens: seq<Term>, e: Event)
    requires Visible(y, screens) && e.Poke?
    ensures Visible(y, UserStored(screens, e.low, e.b, y.procs.view.active, y.procs.view.display))
  {
  }

  predicate IsTidy(img: Bytes, y: Sys, events: seq<Event>)
    requires GoodInodes(img)
    decreases |events|
  {
    events != [] && CanDo(img, y, events[0]) ==>
      Tidy(y, events[0]) && IsTidy(img, Advance(img, y, events[0]), events[1..])
  }

  ghost function ShowAll(img: Bytes, y: Sys, screens: seq<Term>, events: seq<Event>): seq<Term>
    requires GoodInodes(img)
    decreases |events|
  {
    if events == [] || !CanDo(img, y, events[0]) || !Visible(y, screens) then screens
    else ShowAll(img, Advance(img, y, events[0]), Show(img, y, screens, events[0]), events[1..])
  }

  /** Main result: over every run in which no root clears over a line being edited, every cursor stays on its screen
      and ahead of its line. */
  lemma {:induction false} RunIsVisible(img: Bytes, y: Sys, m: Machine, screens: seq<Term>, events: seq<Event>)
    requires Sound(img) && Good(img, y, m) && Visible(y, screens)
    requires IsHistory(img, y, events) && IsTidy(img, y, events)
    ensures Visible(AdvanceAll(img, y, events), ShowAll(img, y, screens, events))
    decreases |events|
  {
    if events != [] {
      var m1 := EventIsGood(img, y, m, events[0]);
      VisibleIff(img, y, screens, events[0]);
      RunIsVisible(img, Advance(img, y, events[0]), m1, Show(img, y, screens, events[0]), events[1..]);
    }
  }

  /** What a stroke on a line does to its screen. */
  function StrokeEffects(line: Bytes, k: Stroke): seq<TerminalRuns.Event> {
    match k
    case Type(c) => if |line| < LIMIT then [TerminalRuns.Put(c)] else []
    case Backspace => if line == [] then [] else [TerminalRuns.EraseLast]
    case Wipe => [TerminalRuns.ClearAll]
    case Submit => []
  }

  function KeyEffects(line: Bytes, ks: seq<Stroke>): seq<TerminalRuns.Event>
    requires |line| <= LIMIT
    decreases |ks|
  {
    if ks == [] then [] else StrokeEffects(line, ks[0]) + KeyEffects(Edit(line, ks[0]), ks[1..])
  }

  function Puts(buf: Bytes): seq<TerminalRuns.Event> {
    if buf == [] then [] else [TerminalRuns.Put(buf[0])] + Puts(buf[1..])
  }

  /** What an event does to terminal t's screen: the keys typed while it is displayed, the output of its own processes,
      stores through the video window by a process that reaches its page, and a halted root's clear while it is
      displayed. */
  function EffectsOf(img: Bytes, y: Sys, e: Event, t: int): seq<TerminalRuns.Event>
    requires GoodInodes(img) && CanDo(img, y, e) && 0 <= t < TERMINALS
  {
    var display := y.procs.view.display;
    match e
    case RootClear => if display == t then [TerminalRuns.Home] else []
    case ClearCells(n) => if display == t then [TerminalRuns.Blank(y.wipe.value, n)] else []
    case Scan(_, _) => KeyEffects(y.lines[t], StrokesAt(y, e, t))
    case Write(buf) => if Home(y.procs) == t then Puts(buf) else []
    case Poke(low, b) =>
      if OwnerOf(UserFrame(low / PAGE_SIZE, Home(y.procs), display), display) == t then
        [TerminalRuns.Store(low % PAGE_SIZE, b)]
      else []
    case _ => []
  }

  function EffectsIn(img: Bytes, y: Sys, events: seq<Event>, t: int): seq<TerminalRuns.Event>
    requires GoodInodes(img) && 0 <= t < TERMINALS
    decreases |events|
  {
    if events == [] || !CanDo(img, y, events[0]) then []
    else EffectsOf(img, y, events[0], t) + EffectsIn(img, Advance(img, y, events[0]), events[1..], t)
  }

  lemma {:induction false} AloneOn(a: Term, es: seq<TerminalRuns.Event>, b: Term, fs: seq<TerminalRuns.Event>, c: Term)
    requires TerminalRuns.Alone(a, es, b) && TerminalRuns.Alone(b, fs, c)
    ensures TerminalRuns.Alone(a, es + fs, c)
    decreases |es|
  {
    if es == [] {
      assert es + fs == fs;
    } else {
      assert (es + fs)[1..] == es[1..] + fs;
      AloneOn(TerminalRuns.Happen(a, es[0]), es[1..], b, fs, c);
    }
  }

  lemma {:induction false} PutsAlone(a: Term, buf: Bytes)
    requires Screens.Valid(a)
    ensures TerminalRuns.Alone(a, Puts(buf), PutAll(a, buf))
    decreases |buf|
  {
    if buf != [] { PutsAlone(Putc(a, buf[0]), buf[1..]); }
  }

  lemma StrokeAlone(a: Term, line: Bytes, k: Stroke)
    requires Screens.Valid(a) && |line| <= LIMIT && Offset(a) >= |line|
    ensures TerminalRuns.Alone(a, StrokeEffects(line, k), Echo(a, line, k))
  {
  }

  /** One optional stroke on the displayed terminal. */
  lemma PressedAlone(d: Desk, k: Option<Stroke>)
    requires Ahead(d)
    ensures var t, d' := d.world.display, Pressed(d, k);
            && TerminalRuns.Alone(d.world.screens[t], KeyEffects(d.lines[t], AsSeq(k)), d'.world.screens[t])
            && d'.lines[t] == EditAll(d.lines[t], AsSeq(k))
            && d'.world.display == t
            && (forall u :: 0 <= u < TERMINALS && u != t ==> d'.world.screens[u] == d.world.screens[u])
  {
    if k.Some? {
      var t := d.world.display;
      StrokeAlone(d.world.screens[t], d.lines[t], k.value);
      assert KeyEffects(d.lines[t], [k.value]) == StrokeEffects(d.lines[t], k.value) + [];
      assert StrokeEffects(d.lines[t], k.value) + [] == StrokeEffects(d.lines[t], k.value);
    }
  }

  lemma {:induction false} KeyEffectsOn(line: Bytes, a: seq<Stroke>, b: seq<Stroke>)
    requires |line| <= LIMIT
    ensures KeyEffects(line, a + b) == KeyEffects(line, a) + KeyEffects(EditAll(line, a), b)
    decreases |a|
  {
    if a == [] {
      assert a + b == b;
    } else {
      assert (a + b)[1..] == a[1..] + b;
      KeyEffectsOn(Edit(line, a[0]), a[1..], b);
    }
  }

  lemma KeyAlone(d: Desk, m: Mods, c: int, t: int)
    requires Ahead(d) && |m.pressed| == KEYS && 0 <= t < TERMINALS
    ensures var effects := if d.world.display == t then KeyEffects(d.lines[t], StrokesOf(m, c)) else [];
            TerminalRuns.Alone(d.world.screens[t], effects, Keyed(d, m, c).world.screens[t])
  {
    var k1, k2 := FirstStroke(m, c), LastStroke(c);
    var d1 := Pressed(d, k1);
    PressedAlone(d, k1);
    PressedAlone(d1, k2);
    if d.world.display == t {
      KeyEffectsOn(d.lines[t], AsSeq(k1), AsSeq(k2));
      AloneOn(d.world.screens[t], KeyEffects(d.lines[t], AsSeq(k1)), d1.world.screens[t],
              KeyEffects(d1.lines[t], AsSeq(k2)), Pressed(d1, k2).world.screens[t]);
    }
  }

  lemma EventShows(img: Bytes, y: Sys, m: Machine, screens: seq<Term>, e: Event, t: int)
    requires GoodInodes(img) && Good(img, y, m) && CanDo(img, y, e) && Visible(y, screens) && 0 <= t < TERMINALS
    ensures TerminalRuns.Alone(screens[t], EffectsOf(img, y, e, t), Show(img, y, screens, e)[t])
  {
    hide Refines, FileCalls.Inv, Readers;
    if e.Scan? {
      KeyAlone(DeskOf(y, screens), Press(y.mods, e.c), e.c, t);
    } else if e.Write? {
      PutsAlone(screens[t], e.buf);
    }
  }

  /** Main result: after any such run each screen is what its own effects make of it. */
  lemma {:induction false} ScreenIsOwn(img: Bytes, y: Sys, m: Machine, screens: seq<Term>, events: seq<Event>, t: int)
    requires Sound(img) && Good(img, y, m) && Visible(y, screens) && 0 <= t < TERMINALS
    requires IsHistory(img, y, events) && IsTidy(img, y, events)
    ensures |ShowAll(img, y, screens, events)| == TERMINALS
    ensures TerminalRuns.Alone(screens[t], EffectsIn(img, y, events, t), ShowAll(img, y, screens, events)[t])
    decreases |events|
  {
    if events != [] {
      var m1 := EventIsGood(img, y, m, events[0]);
      var y1, screens1 := Advance(img, y, events[0]), Show(img, y, screens, events[0]);
      EventShows(img, y, m, screens, events[0], t);
      VisibleIff(img, y, screens, events[0]);
      ScreenIsOwn(img, y1, m1, screens1, events[1..], t);
      AloneOn(screens[t], EffectsOf(img, y, events[0], t), screens1[t], EffectsIn(img, y1, events[1..], t),
              ShowAll(img, y, screens, events)[t]);
    }
  }

  /** A program's output never changes another terminal's screen; its stores do exactly through the backing page of
      a terminal that is neither its own nor displayed. */
  lemma OutputStaysHome(img: Bytes, y: Sys, m: Machine, screens: seq<Term>, e: Event, t: int)
    requires GoodInodes(img) && Good(img, y, m) && CanDo(img, y, e) && Visible(y, screens) && 0 <= t < TERMINALS
    requires (e.Write? || e.Poke?) && t != Home(y.procs)
    ensures e.Write? ==> Show(img, y, screens, e)[t] == screens[t]
    ensures e.Poke? && screens[t].bytes[e.low % PAGE_SIZE] != e.b ==>
              (Show(img, y, screens, e)[t] != screens[t] <==>
               e.low / PAGE_SIZE == VIDEO_IND + t + 1 && t != y.procs.view.display)
  {
    if e.Poke? && screens[t].bytes[e.low % PAGE_SIZE] != e.b {
      UserStoreHits(screens, e.low, e.b, y.procs.view.active, y.procs.view.display, t);
    }
  }

  /** A halted root's clear hits whatever terminal is displayed, so its own exactly when that one is: the reset of a
      cursor that is not at the origin, and the blanking of a cell that is not blank. */
  lemma ClearHits(img: Bytes, y: Sys, screens: seq<Term>, e: Event)
    requires GoodInodes(img) && CanDo(img, y, e) && Visible(y, screens) && (e.RootClear? || e.ClearCells?)
    ensures var t := y.procs.pcbs[y.procs.current].terminal;
            && (e.RootClear? && Offset(screens[t]) != 0 ==>
                  (Show(img, y, screens, e)[t] != screens[t] <==> t == y.procs.view.display))
            && (e.ClearCells? && e.n > 0 && screens[t].bytes[2 * y.wipe.value] != SPACE ==>
                  (Show(img, y, screens, e)[t] != screens[t] <==> t == y.procs.view.display))
            && forall u :: 0 <= u < TERMINALS && u != y.procs.view.display ==>
                 Show(img, y, screens, e)[u] == screens[u]
  {
    var t := y.procs.pcbs[y.procs.current].terminal;
    if e.ClearCells? && e.n > 0 && screens[t].bytes[2 * y.wipe.value] != SPACE && t == y.procs.view.display {
      assert Show(img, y, screens, e)[t].bytes[2 * y.wipe.value] == SPACE;
    }
  }

  /** Alt-F1 inside such a clear: the rest of the blanks land on terminal 0's page and leave its cursor where it was. */
  lemma SwitchMovesClear(img: Bytes, y: Sys, m: Machine, screens: seq<Term>, junk: Bytes, n: int)
    requires Sound(img) && Good(img, y, m) && Visible(y, screens) && CanDo(img, y, Event.ClearCells(n))
    requires CanDo(img, y, Scan(F1, junk)) && y.mods.pressed[LEFT_ALT]
    ensures var y' := Advance(img, y, Scan(F1, junk));
            && CanDo(img, y', Event.ClearCells(n)) && Show(img, y, screens, Scan(F1, junk)) == screens
            && Visible(y', screens)
            && Show(img, y', screens, Event.ClearCells(n)) == screens[0 := Blanked(screens[0], y.wipe.value, n)]
  {
    var m' := EventIsGood(img, y, m, Scan(F1, junk));
    VisibleIff(img, y, screens, Scan(F1, junk));
  }

  /** What a program writes without line feeds shows on its own terminal from the cursor on, character by character. */
  lemma WriteShows(img: Bytes, y: Sys, m: Machine, screens: seq<Term>, buf: Bytes, n: int)
    requires GoodInodes(img) && Good(img, y, m) && CanDo(img, y, Write(buf)) && Visible(y, screens)
    requires Offset(screens[Home(y.procs)]) + |buf| <= 2000 && 0 <= n < 2000
    requires forall k :: 0 <= k < |buf| ==> buf[k] != 10 && buf[k] != 13
    ensures var t := Home(y.procs);
            var before, after := screens[t], Show(img, y, screens, Write(buf))[t];
            && |after.bytes| == PAGE && Offset(after) == Offset(before) + |buf|
            && CellAt(after, n) == if Offset(before) <= n < Offset(before) + |buf| then (buf[n - Offset(before)], 7)
                                   else CellAt(before, n)
  {
    hide Refines, FileCalls.Inv, Readers;
    TextShows(screens[Home(y.procs)], buf, n);
  }

  /** A key without modifiers shows its character at the cursor of the displayed terminal. */
  lemma KeyShows(img: Bytes, y: Sys, screens: seq<Term>, c: int, junk: Bytes, n: int)
    requires GoodInodes(img) && CanDo(img, y, Scan(c, junk)) && Visible(y, screens) && 0 <= n < 2000
    requires Bare(y.mods) && IsTyping(c) && |y.lines[y.procs.view.display]| < 128
    requires Offset(screens[y.procs.view.display]) < 2000
    ensures var t := y.procs.view.display;
            var before, after := screens[t], Show(img, y, screens, Scan(c, junk))[t];
            && |after.bytes| == PAGE && Offset(after) == Offset(before) + 1
            && CellAt(after, n) == if n == Offset(before) then (Plain(c), 7) else CellAt(before, n)
  {
    hide FileCalls.Inv, Readers, Plain, Putc;
    var m, t := Press(y.mods, c), y.procs.view.display;
    BareTypes(y.mods, c);
    assert Keyed(DeskOf(y, screens), m, c) == Pressed(DeskOf(y, screens), Some(Type(Plain(c))));
    TextShows(screens[t], [Plain(c)], n);
    OneChar(screens[t], Plain(c));
  }

  lemma OneChar(t: Term, c: Byte)
    requires Screens.Valid(t)
    ensures PutAll(t, [c]) == Putc(t, c)
  {
    assert PutAll(t, [c]) == PutAll(Putc(t, c), []);
  }
}
