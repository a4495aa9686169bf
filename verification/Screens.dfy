/** One logical screen: its 4 KB page and its cursor, and what the console routines of lib.c do to it. */
module Screens {
  import opened Words

  const COLS := 80
  const ROWS := 25
  const PAGE := 4096
  const ATTRIB: Byte := 7

  datatype Term = Term(bytes: Bytes, x: int, y: int)

  /** Between operations the cursor is on the screen or waits, in column 0, just below it. */
  predicate Valid(t: Term) {
    && |t.bytes| == PAGE
    && 0 <= t.x < COLS
    && 0 <= t.y <= ROWS
    && (t.y == ROWS ==> t.x == 0)
  }

  predicate AllValid(screens: seq<Term>) {
    |screens| == TERMINALS && forall t :: 0 <= t < TERMINALS ==> Valid(screens[t])
  }

  function Offset(t: Term): int { COLS * t.y + t.x }

  predicate IsNewline(c: Byte) { c == NEWLINE || c == RETURN }

  /** The page after one row has scrolled off: attributes are reset, bytes past the last row stay. */
  function ShiftedByte(bytes: Bytes, k: int): Byte
    requires |bytes| == PAGE && 0 <= k < PAGE
  {
    if k >= 2 * COLS * ROWS then bytes[k]
    else if k % 2 == 1 then ATTRIB
    else if k >= 2 * COLS * (ROWS - 1) then SPACE
    else bytes[k + 2 * COLS]
  }

  function ShiftUp(bytes: Bytes): (r: Bytes)
    requires |bytes| == PAGE
    ensures |r| == PAGE
  {
    seq(PAGE, k requires 0 <= k < PAGE => ShiftedByte(bytes, k))
  }

  function PutCell(bytes: Bytes, n: int, c: Byte): (r: Bytes)
    requires |bytes| == PAGE && 0 <= n < COLS * ROWS
    ensures |r| == PAGE
  {
    bytes[2 * n := c][2 * n + 1 := ATTRIB]
  }

  function Scroll(t: Term): (r: Term)
    requires |t.bytes| == PAGE
    ensures |r.bytes| == PAGE
  {
    if t.y >= ROWS then Term(ShiftUp(t.bytes), 0, ROWS - 1) else t
  }

  function Putc(t: Term, c: Byte): (r: Term)
    requires Valid(t)
    ensures Valid(r)
  {
    if IsNewline(c) then Scroll(t.(x := 0, y := t.y + 1))
    else
      var u := Scroll(t);
      Term(PutCell(u.bytes, Offset(u), c), (u.x + 1) % COLS, u.y + (u.x + 1) / COLS)
  }

  /** Erasing steps back one cell, across a row boundary too; the cursor must not be at the origin. */
  function Erase(t: Term): (r: Term)
    requires Valid(t) && Offset(t) > 0
    ensures Valid(r) && Offset(r) == Offset(t) - 1
  {
    var u := if t.x == 0 then t.(x := COLS - 1, y := t.y - 1) else t.(x := t.x - 1);
    u.(bytes := PutCell(u.bytes, Offset(u), SPACE))
  }

  /** Byte k of the page when cells i to i + n - 1 are blank. */
  function BlankedByte(bytes: Bytes, i: int, n: int, k: int): Byte
    requires |bytes| == PAGE && 0 <= k < PAGE
  {
    if !(2 * i <= k < 2 * (i + n)) then bytes[k] else if k % 2 == 0 then SPACE else ATTRIB
  }

  function Blanked(t: Term, i: int, n: int): (r: Term)
    requires Valid(t)
    ensures Valid(r) && r.x == t.x && r.y == t.y
  {
    t.(bytes := seq(PAGE, k requires 0 <= k < PAGE => BlankedByte(t.bytes, i, n, k)))
  }

  function Homed(t: Term): (r: Term)
    requires Valid(t)
    ensures Valid(r)
  {
    t.(x := 0, y := 0)
  }

  function Clear(t: Term): (r: Term)
    requires Valid(t)
    ensures Valid(r)
  {
    Blanked(Homed(t), 0, COLS * ROWS)
  }

  /** A program's store through its vidmap window. */
  function Poke(t: Term, k: int, b: Byte): (r: Term)
    requires Valid(t) && 0 <= k < PAGE
    ensures Valid(r)
  {
    t.(bytes := t.bytes[k := b])
  }

  function PutAll(t: Term, s: Bytes): (r: Term)
    requires Valid(t)
    ensures Valid(r)
    decreases |s|
  {
    if s == [] then t else PutAll(Putc(t, s[0]), s[1..])
  }
}
