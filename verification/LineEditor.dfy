/** The keyboard line editor beside program output: what is typed, and where the cursor may go. */
module LineEditor {
  import opened Words
  import opened Screens
  import opened TerminalRuns

  const LIMIT := 128

  /** What a key press asks of the line being edited on the displayed terminal. */
  datatype Stroke = Type(c: Byte) | Backspace | Wipe | Submit

  /** A full line ignores further characters; backspace on an empty line does nothing. */
  function Edit(line: Bytes, k: Stroke): (r: Bytes)
    requires |line| <= LIMIT
    ensures |r| <= LIMIT
  {
    match k
    case Type(c) => if |line| < LIMIT then line + [c] else line
    case Backspace => if line == [] then line else line[..|line| - 1]
    case Wipe => []
    case Submit => []
  }

  /** The echo of a stroke on a screen whose cursor is ahead of the line. */
  function Echo(t: Term, line: Bytes, k: Stroke): (r: Term)
    requires Screens.Valid(t) && Offset(t) >= |line|
    ensures Screens.Valid(r)
  {
    match k
    case Type(c) => if |line| < LIMIT then Putc(t, c) else t
    case Backspace => if line == [] then t else Erase(t)
    case Wipe => Clear(t)
    case Submit => t
  }

  /** The three screens and the three lines being edited. */
  datatype Desk = Desk(world: World, lines: seq<Bytes>)

  predicate Valid(d: Desk) {
    && TerminalRuns.Valid(d.world) && |d.lines| == TERMINALS
    && forall t :: 0 <= t < TERMINALS ==> |d.lines[t]| <= LIMIT
  }

  /** Each cursor is at least as many cells into its screen as its line is long. */
  predicate Ahead(d: Desk) {
    Valid(d) && forall t :: 0 <= t < TERMINALS ==> Offset(d.world.screens[t]) >= |d.lines[t]|
  }

  /** Key strokes, program output, terminal changes, and the clear that follows a terminal root's halt: its cursor
      reset, and cells it blanks. */
  datatype Act =
    | Key(k: Stroke)
    | Output(e: Event)
    | Activate(t: int)
    | Display(t: int)
    | RootClear
    | ClearCells(i: int, n: int)

  /** Only the arguments are constrained: nothing is said about cursors. */
  predicate Enabled(d: Desk, a: Act) {
    match a
    case Output(e) => e.Put? || (e.Store? && 0 <= e.k < PAGE)
    case Activate(t) => 0 <= t < TERMINALS
    case Display(t) => 0 <= t < TERMINALS
    case _ => true
  }

  function Do(d: Desk, a: Act): (r: Desk)
    requires Ahead(d) && Enabled(d, a)
    ensures Valid(r)
  {
    var w := d.world;
    match a
    case Key(k) =>
      var line, screen := d.lines[w.display], w.screens[w.display];
      Desk(w.(screens := w.screens[w.display := Echo(screen, line, k)]), d.lines[w.display := Edit(line, k)])
    case Output(e) => d.(world := w.(screens := w.screens[w.active := Happen(w.screens[w.active], e)]))
    case Activate(t) => d.(world := w.(active := t))
    case Display(t) => d.(world := w.(display := t))
    case RootClear => d.(world := w.(screens := w.screens[w.display := Homed(w.screens[w.display])]))
    case ClearCells(i, n) => d.(world := w.(screens := w.screens[w.display := Blanked(w.screens[w.display], i, n)]))
  }

  /** Output moves the cursor forward or scrolls, and a scroll leaves more than a whole line behind it. */
  lemma PutMovesOn(t: Term, c: Byte)
    requires Screens.Valid(t)
    ensures Offset(Putc(t, c)) >= Offset(t) + 1 || Offset(Putc(t, c)) >= LIMIT + 1
  {
  }

  lemma {:induction false} PutAllStaysAhead(t: Term, s: Bytes, n: int)
    requires Screens.Valid(t) && Offset(t) >= n && n <= LIMIT
    ensures Offset(PutAll(t, s)) >= n
    decreases |s|
  {
    if s != [] {
      PutMovesOn(t, s[0]);
      PutAllStaysAhead(Putc(t, s[0]), s[1..], n);
    }
  }

  /** Who is active or displayed does not matter to the cursors. */
  lemma StillAhead(d: Desk, d': Desk)
    requires Ahead(d) && d'.lines == d.lines && d'.world.screens == d.world.screens
    requires 0 <= d'.world.active < TERMINALS && 0 <= d'.world.display < TERMINALS
    ensures Ahead(d')
  {
  }

  lemma WriteIsAhead(d: Desk, buf: Bytes)
    requires Ahead(d)
    ensures var t := d.world.active;
            Ahead(d.(world := d.world.(screens := d.world.screens[t := PutAll(d.world.screens[t], buf)])))
  {
    PutAllStaysAhead(d.world.screens[d.world.active], buf, |d.lines[d.world.active]|);
  }

  /** Everything but the root's clear keeps every cursor ahead of its line. */
  lemma ActKeepsAhead(d: Desk, a: Act)
    requires Ahead(d) && Enabled(d, a) && !a.RootClear?
    ensures Ahead(Do(d, a))
  {
    var w := d.world;
    match a {
      case Key(k) => if k.Type? { PutMovesOn(w.screens[w.display], k.c); }
      case Output(e) => if e.Put? { PutMovesOn(w.screens[w.active], e.c); }
      case Activate(t) =>
      case Display(t) =>
      case ClearCells(i, n) =>
    }
  }

  /** The root's clear resets the screen but not the line: the cursors stay ahead exactly when the displayed
      line is empty. */
  lemma RootClearIff(d: Desk)
    requires Ahead(d)
    ensures Ahead(Do(d, RootClear)) <==> d.lines[d.world.display] == []
  {
    var d' := Do(d, RootClear);
    assert Offset(d'.world.screens[d.world.display]) == 0;
  }

  /** A run in which a root never clears over a line being edited. Nothing is promised of d' if a cursor fell
      behind on the way: that none does, is proved. */
  ghost predicate IsRun(d: Desk, acts: seq<Act>, d': Desk)
    decreases |acts|
  {
    if acts == [] then d' == d
    else Ahead(d) ==> && Enabled(d, acts[0]) && (acts[0].RootClear? ==> d.lines[d.world.display] == [])
                      && IsRun(Do(d, acts[0]), acts[1..], d')
  }

  /** Main result: over every such run the cursors stay ahead, so a backspace never leaves the screen. */
  lemma {:induction false} RunKeepsAhead(d: Desk, acts: seq<Act>, d': Desk)
    requires Ahead(d) && IsRun(d, acts, d')
    ensures Ahead(d')
    ensures forall t :: 0 <= t < TERMINALS && d'.lines[t] != [] ==> Offset(d'.world.screens[t]) > 0
    decreases |acts|
  {
    if acts != [] {
      if acts[0].RootClear? { RootClearIff(d); } else { ActKeepsAhead(d, acts[0]); }
      RunKeepsAhead(Do(d, acts[0]), acts[1..], d');
    }
  }

  /** The strokes that reached terminal t. */
  function StrokesFor(acts: seq<Act>, display: int, t: int): seq<Stroke> {
    if acts == [] then []
    else
      match acts[0]
      case Key(k) => (if display == t then [k] else []) + StrokesFor(acts[1..], display, t)
      case Display(u) => StrokesFor(acts[1..], u, t)
      case _ => StrokesFor(acts[1..], display, t)
  }

  function EditAll(line: Bytes, ks: seq<Stroke>): (r: Bytes)
    requires |line| <= LIMIT
    ensures |r| <= LIMIT
    decreases |ks|
  {
    if ks == [] then line else EditAll(Edit(line, ks[0]), ks[1..])
  }

  lemma {:induction false} EditAllOn(line: Bytes, a: seq<Stroke>, b: seq<Stroke>)
    requires |line| <= LIMIT
    ensures EditAll(line, a + b) == EditAll(EditAll(line, a), b)
    decreases |a|
  {
    if a == [] {
      assert a + b == b;
    } else {
      assert (a + b)[1..] == a[1..] + b;
      EditAllOn(Edit(line, a[0]), a[1..], b);
    }
  }

  /** Main result: each terminal's line is the fold of its own strokes, whatever else happens in between. */
  lemma {:induction false} LineIsFold(d: Desk, acts: seq<Act>, d': Desk, t: int)
    requires Ahead(d) && IsRun(d, acts, d') && 0 <= t < TERMINALS
    ensures |d'.lines| == TERMINALS && d'.lines[t] == EditAll(d.lines[t], StrokesFor(acts, d.world.display, t))
    decreases |acts|
  {
    if acts != [] {
      if acts[0].RootClear? { RootClearIff(d); } else { ActKeepsAhead(d, acts[0]); }
      var d1 := Do(d, acts[0]);
      LineIsFold(d1, acts[1..], d', t);
      var rest := StrokesFor(acts[1..], d1.world.display, t);
      var all := StrokesFor(acts, d.world.display, t);
      assert all == rest || all[1..] == rest;
    }
  }

  /** The cell under the cursor is blank, or will be once the pending scroll has happened. */
  predicate BlankAhead(t: Term)
    requires Screens.Valid(t)
  {
    t.y < ROWS ==> t.bytes[2 * Offset(t)] == SPACE && t.bytes[2 * Offset(t) + 1] == ATTRIB
  }

  /** Erasing takes a character back: only a scroll it forced remains. */
  lemma EraseUndoesPut(t: Term, c: Byte)
    requires Screens.Valid(t) && BlankAhead(t) && !IsNewline(c)
    ensures Offset(Putc(t, c)) > 0 && Erase(Putc(t, c)) == Scroll(t)
  {
    var u := Scroll(t);
    assert u.bytes[2 * Offset(u)] == SPACE && u.bytes[2 * Offset(u) + 1] == ATTRIB;
    assert Offset(Putc(t, c)) == Offset(u) + 1;
    assert Erase(Putc(t, c)).bytes == u.bytes;
  }

  /** Backspace undoes a typed character, in the line and on the screen. */
  lemma BackspaceUndoesType(d: Desk, c: Byte)
    requires Ahead(d) && !IsNewline(c)
    requires |d.lines[d.world.display]| < LIMIT && BlankAhead(d.world.screens[d.world.display])
    ensures var t, d1 := d.world.display, Do(d, Key(Type(c)));
            && Ahead(d1)
            && Do(d1, Key(Backspace)) ==
               d.(world := d.world.(screens := d.world.screens[t := Scroll(d.world.screens[t])]))
  {
    ActKeepsAhead(d, Key(Type(c)));
    EraseUndoesPut(d.world.screens[d.world.display], c);
    var line := d.lines[d.world.display];
    assert (line + [c])[..|line|] == line;
  }

  /** A root that halts over a typed character: the next backspace would leave the screen. */
  lemma RootClearCanStrandTheCursor(d: Desk, c: Byte)
    requires Ahead(d) && d.lines[d.world.display] == []
    ensures var d1 := Do(d, Key(Type(c)));
            Ahead(d1) && !Ahead(Do(d1, RootClear))
  {
    ActKeepsAhead(d, Key(Type(c)));
    RootClearIff(Do(d, Key(Type(c))));
  }
}
