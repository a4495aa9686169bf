/** The visible screen is a 25-row window onto a row log that never forgets. */
module Scrollback {
  import opened Words
  import opened Screens

  /** Rows begun so far, the row shown at the top, and the cursor in log coordinates. */
  datatype Log = Log(rows: seq<Bytes>, top: nat, line: nat, col: nat)

  function Blank(): (r: Bytes)
    ensures |r| == COLS && forall k :: 0 <= k < COLS ==> r[k] == SPACE
  {
    seq(COLS, _ => SPACE)
  }

  /** The cursor waits below the bottom row after a full line. */
  predicate Pending(l: Log) { l.line == l.top + ROWS }

  predicate Valid(l: Log) {
    && |l.rows| == l.top + ROWS
    && (forall r :: 0 <= r < |l.rows| ==> |l.rows[r]| == COLS)
    && l.top <= l.line <= l.top + ROWS
    && l.col < COLS
    && (Pending(l) ==> l.col == 0)
  }

  /** Scrolling only appends a blank row and moves the window. */
  function Reveal(l: Log): Log
    requires |l.rows| == l.top + ROWS
  {
    if l.line >= l.top + ROWS then l.(rows := l.rows + [Blank()], top := l.top + 1) else l
  }

  function WriteIn(row: Bytes, k: int, c: Byte): Bytes
    requires 0 <= k < |row|
  {
    row[k := c]
  }

  /** Wrap is lazy: a full bottom row scrolls only when the next character needs the space, and a newline
      that arrives while the wrap is pending is absorbed by it. */
  function PutLog(l: Log, c: Byte): (r: Log)
    requires Valid(l)
    ensures Valid(r)
  {
    if IsNewline(c) then Reveal(l.(col := 0, line := if Pending(l) then l.line else l.line + 1))
    else
      var u := Reveal(l);
      var rows := u.rows[u.line := WriteIn(u.rows[u.line], u.col, c)];
      if u.col + 1 < COLS then u.(rows := rows, col := u.col + 1)
      else u.(rows := rows, col := 0, line := u.line + 1)
  }

  function LogAll(l: Log, s: Bytes): (r: Log)
    requires Valid(l)
    ensures Valid(r)
    decreases |s|
  {
    if s == [] then l else LogAll(PutLog(l, s[0]), s[1..])
  }

  function CharAt(t: Term, r: int, k: int): Byte
    requires |t.bytes| == PAGE && 0 <= r < ROWS && 0 <= k < COLS
  {
    t.bytes[2 * (COLS * r + k)]
  }

  predicate Shows(t: Term, l: Log) {
    && Screens.Valid(t) && Valid(l)
    && t.x == l.col && t.y == l.line - l.top
    && (forall r, k :: 0 <= r < ROWS && 0 <= k < COLS ==> CharAt(t, r, k) == l.rows[l.top + r][k])
  }

  lemma RevealShows(t: Term, l: Log)
    requires |t.bytes| == PAGE && |l.rows| == l.top + ROWS && l.top <= l.line
    requires forall r :: 0 <= r < |l.rows| ==> |l.rows[r]| == COLS
    requires t.y == l.line - l.top <= ROWS
    requires forall r, k :: 0 <= r < ROWS && 0 <= k < COLS ==> CharAt(t, r, k) == l.rows[l.top + r][k]
    ensures var t', l' := Scroll(t), Reveal(l);
            forall r, k :: 0 <= r < ROWS && 0 <= k < COLS ==> CharAt(t', r, k) == l'.rows[l'.top + r][k]
  {
    var t', l' := Scroll(t), Reveal(l);
    if t.y == ROWS {
      forall r, k | 0 <= r < ROWS && 0 <= k < COLS ensures CharAt(t', r, k) == l'.rows[l'.top + r][k] {
        assert CharAt(t', r, k) == ShiftedByte(t.bytes, 2 * (COLS * r + k));
        if r < ROWS - 1 { assert CharAt(t', r, k) == CharAt(t, r + 1, k); }
      }
    }
  }

  lemma NewlineShows(t: Term, l: Log, c: Byte)
    requires Shows(t, l) && IsNewline(c)
    ensures Shows(Putc(t, c), PutLog(l, c))
  {
    if Pending(l) {
      RevealShows(t, l);
      assert Putc(t, c).bytes == Scroll(t).bytes;
      assert PutLog(l, c) == Reveal(l);
      forall r, k | 0 <= r < ROWS && 0 <= k < COLS
        ensures CharAt(Putc(t, c), r, k) == Reveal(l).rows[Reveal(l).top + r][k]
      {
        assert CharAt(Putc(t, c), r, k) == CharAt(Scroll(t), r, k);
      }
    } else {
      var t1, l1 := t.(x := 0, y := t.y + 1), l.(col := 0, line := l.line + 1);
      forall r, k | 0 <= r < ROWS && 0 <= k < COLS ensures CharAt(t1, r, k) == l1.rows[l1.top + r][k] {
        assert CharAt(t1, r, k) == CharAt(t, r, k);
      }
      RevealShows(t1, l1);
    }
  }

  lemma CharShows(t: Term, l: Log, c: Byte)
    requires Shows(t, l) && !IsNewline(c)
    ensures Shows(Putc(t, c), PutLog(l, c))
  {
    RevealShows(t, l);
    var u, v := Scroll(t), Reveal(l);
    var t', l' := Putc(t, c), PutLog(l, c);
    forall r, k | 0 <= r < ROWS && 0 <= k < COLS ensures CharAt(t', r, k) == l'.rows[l'.top + r][k] {
      CellAfterPut(u, c, r, k);
      assert CharAt(u, r, k) == v.rows[v.top + r][k];
    }
  }

  /** Only the cell under the cursor takes the character. */
  lemma CellAfterPut(u: Term, c: Byte, r: int, k: int)
    requires Screens.Valid(u) && u.y < ROWS && 0 <= r < ROWS && 0 <= k < COLS
    ensures PutCell(u.bytes, Offset(u), c)[2 * (COLS * r + k)] == if r == u.y && k == u.x then c else CharAt(u, r, k)
  {
    assert r == u.y && k == u.x <==> COLS * r + k == Offset(u);
  }

  lemma PutShows(t: Term, l: Log, c: Byte)
    requires Shows(t, l)
    ensures Shows(Putc(t, c), PutLog(l, c))
  {
    if IsNewline(c) { NewlineShows(t, l, c); } else { CharShows(t, l, c); }
  }

  /** Main result: for every output string the screen is the log's last window, cursor included. */
  lemma {:induction false} OutputShows(t: Term, l: Log, s: Bytes)
    requires Shows(t, l)
    ensures Shows(PutAll(t, s), LogAll(l, s))
    decreases |s|
  {
    if s != [] {
      PutShows(t, l, s[0]);
      OutputShows(Putc(t, s[0]), PutLog(l, s[0]), s[1..]);
    }
  }

  /** The log never rewrites a finished row. */
  lemma {:induction false} HistoryStays(l: Log, s: Bytes, r: nat)
    requires Valid(l) && r < l.line && r < |l.rows|
    ensures r < |LogAll(l, s).rows| && LogAll(l, s).rows[r] == l.rows[r]
    decreases |s|
  {
    if s != [] { HistoryStays(PutLog(l, s[0]), s[1..], r); }
  }

  /** A cleared screen shows the empty log. */
  lemma ClearedShows(t: Term)
    requires Screens.Valid(t)
    ensures Shows(Clear(t), Log(seq(ROWS, _ => Blank()), 0, 0, 0))
  {
    forall r, k | 0 <= r < ROWS && 0 <= k < COLS ensures CharAt(Clear(t), r, k) == SPACE {
      assert CharAt(Clear(t), r, k) == BlankedByte(t.bytes, 0, COLS * ROWS, 2 * (COLS * r + k));
    }
  }

  /** The character of cell n and its attribute. */
  function CellAt(t: Term, n: int): (Byte, Byte)
    requires |t.bytes| == PAGE && 0 <= n < 2000
  {
    (t.bytes[2 * n], t.bytes[2 * n + 1])
  }

  /** Text without line feeds and carriage returns fills the cells from the cursor on, in the standard attribute. */
  lemma {:induction false} TextShows(t: Term, s: Bytes, n: int)
    requires Screens.Valid(t) && Offset(t) + |s| <= 2000 && 0 <= n < 2000
    requires forall k :: 0 <= k < |s| ==> s[k] != 10 && s[k] != 13
    ensures Offset(PutAll(t, s)) == Offset(t) + |s|
    ensures CellAt(PutAll(t, s), n) == if Offset(t) <= n < Offset(t) + |s| then (s[n - Offset(t)], 7) else CellAt(t, n)
    decreases |s|
  {
    if s != [] {
      var u := Putc(t, s[0]);
      assert t.y < 25 && Offset(u) == Offset(t) + 1;
      assert CellAt(u, n) == if n == Offset(t) then (s[0], 7) else CellAt(t, n);
      TextShows(u, s[1..], n);
    }
  }

  /** Line feed and carriage return both start a new line; on the last one every row moves up by one and the last is
      blank. */
  lemma LineFeeds(t: Term, c: Byte, r: int, k: int)
    requires Screens.Valid(t) && (c == 10 || c == 13) && 0 <= r < 25 && 0 <= k < 80
    ensures t.y < 24 ==> Putc(t, c) == t.(x := 0, y := t.y + 1)
    ensures t.y == 24 ==> Offset(Putc(t, c)) == 80 * 24
    ensures t.y == 24 ==> CharAt(Putc(t, c), r, k) == if r == 24 then SPACE else CharAt(t, r + 1, k)
  {
    if t.y == 24 {
      assert CharAt(Putc(t, c), r, k) == ShiftedByte(t.bytes, 2 * (80 * r + k));
    }
  }
}
