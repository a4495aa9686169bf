/** Whole runs of the console: any sequence of operations on the page-mapped video memory acts as three
    screens that do not know of each other. */
module TerminalRuns {
  import opened Words
  import opened Screens
  import opened Console

  /** What one screen can be asked to do. */
  datatype Event = Put(c: Byte) | EraseLast | ClearAll | Store(k: int, b: Byte) | Home | Blank(i: int, n: int)

  /** Console operations; `shown` sends an event to the displayed terminal, `program` to the active one. */
  datatype Op = Activate(t: int) | Display(t: int) | Program(e: Event) | Shown(e: Event)

  datatype World = World(screens: seq<Term>, active: int, display: int)

  predicate Valid(w: World) {
    AllValid(w.screens) && 0 <= w.active < TERMINALS && 0 <= w.display < TERMINALS
  }

  predicate CanHappen(t: Term, e: Event) {
    && Screens.Valid(t)
    && (e.EraseLast? ==> Offset(t) > 0)
    && (e.Store? ==> 0 <= e.k < PAGE)
    && (e.Blank? ==> 0 <= e.i && 0 <= e.n && e.i + e.n <= ROWS * COLS)
  }

  function Happen(t: Term, e: Event): (r: Term)
    requires CanHappen(t, e)
    ensures Screens.Valid(r)
  {
    match e
    case Put(c) => Putc(t, c)
    case EraseLast => Erase(t)
    case ClearAll => Clear(t)
    case Store(k, b) => Poke(t, k, b)
    case Home => Homed(t)
    case Blank(i, n) => Blanked(t, i, n)
  }

  /** Programs print and store; the keyboard and Ctrl-L print, erase and clear; the clear of a halted root, which
      interrupts may cut into, homes the cursor and blanks cells. */
  predicate Allowed(w: World, op: Op)
    requires Valid(w)
  {
    match op
    case Activate(t) => 0 <= t < TERMINALS
    case Display(t) => 0 <= t < TERMINALS
    case Program(e) => (e.Put? || e.Store?) && CanHappen(w.screens[w.active], e)
    case Shown(e) => !e.Store? && CanHappen(w.screens[w.display], e)
  }

  function Do(w: World, op: Op): (r: World)
    requires Valid(w) && Allowed(w, op)
    ensures Valid(r)
  {
    match op
    case Activate(t) => w.(active := t)
    case Display(t) => w.(display := t)
    case Program(e) => w.(screens := w.screens[w.active := Happen(w.screens[w.active], e)])
    case Shown(e) => w.(screens := w.screens[w.display := Happen(w.screens[w.display], e)])
  }

  predicate IsRun(w: World, ops: seq<Op>)
    requires Valid(w)
    decreases |ops|
  {
    ops != [] ==> Allowed(w, ops[0]) && IsRun(Do(w, ops[0]), ops[1..])
  }

  function DoAll(w: World, ops: seq<Op>): (r: World)
    requires Valid(w) && IsRun(w, ops)
    ensures Valid(r)
    decreases |ops|
  {
    if ops == [] then w else DoAll(Do(w, ops[0]), ops[1..])
  }

  /** The events that concern terminal t, given who is active and displayed at the start. */
  function Project(ops: seq<Op>, active: int, display: int, t: int): seq<Event> {
    if ops == [] then []
    else
      match ops[0]
      case Activate(u) => Project(ops[1..], u, display, t)
      case Display(u) => Project(ops[1..], active, u, t)
      case Program(e) => (if active == t then [e] else []) + Project(ops[1..], active, display, t)
      case Shown(e) => (if display == t then [e] else []) + Project(ops[1..], active, display, t)
  }

  ghost predicate Alone(t: Term, events: seq<Event>, r: Term)
    decreases |events|
  {
    if events == [] then r == t
    else CanHappen(t, events[0]) && Alone(Happen(t, events[0]), events[1..], r)
  }

  /** Main result: after any run, each screen is what its own events alone make of it. */
  lemma {:induction false} ScreensAreIndependent(w: World, ops: seq<Op>, t: int)
    requires Valid(w) && IsRun(w, ops) && 0 <= t < TERMINALS
    ensures Alone(w.screens[t], Project(ops, w.active, w.display, t), DoAll(w, ops).screens[t])
    decreases |ops|
  {
    if ops != [] {
      ScreensAreIndependent(Do(w, ops[0]), ops[1..], t);
      var rest := Project(ops[1..], Do(w, ops[0]).active, Do(w, ops[0]).display, t);
      var all := Project(ops, w.active, w.display, t);
      assert all == rest || all[1..] == rest;
    }
  }

  ghost function WorldOf(v: Video): World
    requires v.Shape()
    reads v, v.mem, v.tables.dir, v.tables.table, v.tables.userVideo
  {
    World(v.Abs(), v.active, v.display)
  }

  method Step(v: Video, op: Op)
    requires v.Valid() && Allowed(WorldOf(v), op)
    modifies v, v.mem, v.tables.table, v.tables.userVideo
    ensures v.Valid() && WorldOf(v) == Do(old(WorldOf(v)), op)
  {
    match op {
      case Activate(t) => v.SetActive(t);
      case Display(t) => v.SetDisplay(t);
      case Program(e) =>
        match e {
          case Put(c) => v.PutcScroll(c);
          case Store(k, b) => v.UserPoke(k, b);
        }
      case Shown(e) =>
        match e {
          case Put(c) => v.PutcScrollDisplay(c);
          case EraseLast => v.EraseDisplay();
          case ClearAll => v.ClearDisplay();
          case Home => v.HomeDisplay();
          case Blank(i, n) => v.BlankDisplay(i, n);
        }
    }
  }

  /** The same run on physical memory and page tables reaches the same three screens. */
  method Run(v: Video, ops: seq<Op>)
    requires v.Valid() && IsRun(WorldOf(v), ops)
    modifies v, v.mem, v.tables.table, v.tables.userVideo
    ensures v.Valid() && WorldOf(v) == DoAll(old(WorldOf(v)), ops)
  {
    ghost var w0 := WorldOf(v);
    var i := 0;
    while i < |ops|
      invariant 0 <= i <= |ops| && v.Valid() && IsRun(WorldOf(v), ops[i..])
      invariant DoAll(WorldOf(v), ops[i..]) == DoAll(w0, ops)
    {
      Step(v, ops[i]);
      assert ops[i..][1..] == ops[i + 1..];
      i := i + 1;
    }
  }
}
