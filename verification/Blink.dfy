/** The blink list of blink.S as a sequence of entries: what each operation and each timer tick does to it. */
module Blink {
  import opened Words

  type Half = h: int | 0 <= h < 0x1_0000

  const CELLS := 80 * 25

  datatype Entry =
    Entry(location: Half, onChar: Byte, offChar: Byte, onLength: Half, offLength: Half, countdown: Half, status: Half)

  predicate IsOn(e: Entry) { e.status % 2 == 1 }

  /** `cmpw $0` followed by `jg`: positive as a signed 16-bit number. */
  predicate Positive(h: Half) { 0 < h < 0x8000 }

  function Decremented(h: Half): Half { if h == 0 then 0xFFFF else h - 1 }

  function Flipped(h: Half): Half { if h % 2 == 1 then h - 1 else h + 1 }

  /** A new entry starts on, with its whole on-length to go. */
  function Fresh(e: Entry): Entry { e.(status := 1, countdown := e.onLength) }

  /** One list node in mp1_rtc_tasklet. */
  function TickEntry(e: Entry): Entry {
    var c := Decremented(e.countdown);
    if Positive(c) then e.(countdown := c)
    else e.(countdown := if IsOn(e) then e.offLength else e.onLength, status := Flipped(e.status))
  }

  function Ticked(e: Entry, n: nat): Entry { if n == 0 then e else TickEntry(Ticked(e, n - 1)) }

  /** How many ticks a length really lasts: zero and the lengths above 32768 toggle at the first tick. */
  function Lasts(length: Half): (r: int)
    ensures 1 <= r <= 0x8000
  {
    if 1 <= length <= 0x8000 then length else 1
  }

  lemma ModSucc(n: nat, p: int)
    requires p > 0
    ensures (n + 1) % p == if n % p + 1 == p then 0 else n % p + 1
  {
    var q, r := n / p, n % p;
    assert n == q * p + r;
    if r + 1 == p {
      assert n + 1 == (q + 1) * p;
      ModUnique(n + 1, p, q + 1, 0);
    } else {
      ModUnique(n + 1, p, q, r + 1);
    }
  }

  lemma ModUnique(n: int, p: int, q: int, r: int)
    requires 0 <= r < p && n == q * p + r
    ensures n % p == r
  {
    var q', r' := n / p, n % p;
    assert q' * p + r' == n;
    if q' > q {
      Times(q' - q, p, q, q');
    } else if q' < q {
      Times(q - q', p, q', q);
    }
  }

  lemma Times(d: int, p: int, x: int, y: int)
    requires d >= 1 && p >= 1 && y == x + d
    ensures y * p >= x * p + p
  {
    assert d * p >= p;
    assert y * p == x * p + d * p;
  }

  /** Where an entry is in its cycle n ticks after it was added. */
  lemma {:induction false} Phase(e: Entry, n: nat)
    ensures var on, off := Lasts(e.onLength), Lasts(e.offLength);
            var r := n % (on + off);
            var e' := Ticked(Fresh(e), n);
            && e' == Fresh(e).(countdown := e'.countdown, status := e'.status)
            && e'.status == (if r < on then 1 else 0)
            && (r < on ==> e'.countdown == e.onLength - r)
            && (r >= on ==> e'.countdown == e.offLength - (r - on))
  {
    var on, off := Lasts(e.onLength), Lasts(e.offLength);
    if n == 0 {
      ModUnique(0, on + off, 0, 0);
    } else {
      Phase(e, n - 1);
      ModSucc(n - 1, on + off);
    }
  }

  /** The first onLength of every onLength + offLength ticks. */
  predicate InOnPhase(e: Entry, n: nat)
    requires e.onLength + e.offLength > 0
  {
    n % (e.onLength + e.offLength) < e.onLength
  }

  /** With lengths in 1..32768 an entry is on exactly during the first onLength ticks of each period. */
  lemma OnExactlyWhen(e: Entry, n: nat)
    requires 1 <= e.onLength <= 0x8000 && 1 <= e.offLength <= 0x8000
    ensures IsOn(Ticked(Fresh(e), n)) <==> InOnPhase(e, n)
  {
    Phase(e, n);
  }

  predicate SameTiming(a: Entry, b: Entry) {
    a.onLength == b.onLength && a.offLength == b.offLength && a.countdown == b.countdown && a.status == b.status
  }

  lemma {:induction false} SameTimingStays(a: Entry, b: Entry, n: nat)
    requires SameTiming(a, b)
    ensures SameTiming(Ticked(a, n), Ticked(b, n))
  {
    if n > 0 { SameTimingStays(a, b, n - 1); }
  }

  /** The index of the first entry at a location, or the length of the list. */
  function IndexOf(es: seq<Entry>, loc: int, i: int := 0): (r: int)
    requires 0 <= i <= |es|
    ensures i <= r <= |es| && (r < |es| ==> es[r].location == loc) && forall k :: i <= k < r ==> es[k].location != loc
    decreases |es| - i
  {
    if i == |es| || es[i].location == loc then i else IndexOf(es, loc, i + 1)
  }

  datatype Op = Add(e: Entry) | Remove(loc: Half) | Sync(from: Half, to: Half) | Tick

  function TickAll(es: seq<Entry>): (r: seq<Entry>)
    ensures |r| == |es|
  {
    seq(|es|, i requires 0 <= i < |es| => TickEntry(es[i]))
  }

  function Synced(from: Entry, to: Entry): Entry {
    to.(onLength := from.onLength, offLength := from.offLength, countdown := from.countdown, status := from.status)
  }

  /** The list as a sequence: add is cons, remove drops the first match, sync copies the timing. */
  function Apply(es: seq<Entry>, op: Op): seq<Entry> {
    match op
    case Add(e) => if e.location < CELLS then [Fresh(e)] + es else es
    case Remove(loc) =>
      var k := IndexOf(es, loc);
      if k == |es| then es else es[..k] + es[k + 1..]
    case Sync(from, to) =>
      var i, j := IndexOf(es, from), IndexOf(es, to);
      if i == |es| || j == |es| then es else es[j := Synced(es[i], es[j])]
    case Tick => TickAll(es)
  }

  function ApplyAll(es: seq<Entry>, ops: seq<Op>): seq<Entry>
    decreases |ops|
  {
    if ops == [] then es else ApplyAll(Apply(es, ops[0]), ops[1..])
  }

  /** Operations that replace, drop or re-synchronise the entry found at a location. */
  predicate Touches(op: Op, loc: int) {
    match op
    case Add(e) => e.location == loc
    case Remove(l) => l == loc
    case Sync(_, to) => to == loc
    case Tick => false
  }

  function CountTicks(ops: seq<Op>): nat {
    if ops == [] then 0 else (if ops[0].Tick? then 1 else 0) + CountTicks(ops[1..])
  }

  predicate Finds(es: seq<Entry>, loc: int, e: Entry) { IndexOf(es, loc) < |es| && es[IndexOf(es, loc)] == e }

  lemma IndexIs(es: seq<Entry>, loc: int, k: int)
    requires 0 <= k < |es| && es[k].location == loc && forall i :: 0 <= i < k ==> es[i].location != loc
    ensures IndexOf(es, loc) == k
  {
  }

  /** An operation that does not touch a location leaves its entry alone, but for one tick. */
  lemma Untouched(es: seq<Entry>, op: Op, loc: int, e: Entry)
    requires Finds(es, loc, e) && !Touches(op, loc)
    ensures Finds(Apply(es, op), loc, if op.Tick? then TickEntry(e) else e)
  {
    var k, es' := IndexOf(es, loc), Apply(es, op);
    match op {
      case Add(f) => if f.location < CELLS { IndexIs(es', loc, k + 1); }
      case Remove(l) =>
        var d := IndexOf(es, l);
        if d < |es| { IndexIs(es', loc, if d < k then k - 1 else k); }
      case Sync(from, to) => IndexIs(es', loc, k);
      case Tick => IndexIs(es', loc, k);
    }
  }

  /** Over any interleaving that does not touch it, an entry only counts ticks. */
  lemma {:induction false} UntouchedRun(es: seq<Entry>, ops: seq<Op>, loc: int, e: Entry, n: nat) returns (now: Entry)
    requires Finds(es, loc, Ticked(e, n)) && forall i :: 0 <= i < |ops| ==> !Touches(ops[i], loc)
    ensures Finds(ApplyAll(es, ops), loc, now)
    ensures now == Ticked(e, n + CountTicks(ops))
    decreases |ops|
  {
    now := Ticked(e, n);
    if ops != [] {
      Untouched(es, ops[0], loc, now);
      now := UntouchedRun(Apply(es, ops[0]), ops[1..], loc, e, if ops[0].Tick? then n + 1 else n);
    }
  }

  /** Location, characters and lengths: what the caller of add chooses and ticks leave alone. */
  predicate SameChoice(a: Entry, b: Entry) {
    && a.location == b.location && a.onChar == b.onChar && a.offChar == b.offChar
    && a.onLength == b.onLength && a.offLength == b.offLength
  }

  lemma {:induction false} TicksKeepChoice(e: Entry, n: nat)
    ensures SameChoice(Ticked(e, n), e)
  {
    if n > 0 { TicksKeepChoice(e, n - 1); }
  }

  /** Main result: an entry added with lengths in 1..32768 keeps the location, characters and lengths it was given, and
      is on exactly when the number of ticks since, modulo the period, is below the on-length, whatever happens to other
      locations. */
  lemma AddedEntryBlinks(es: seq<Entry>, e: Entry, ops: seq<Op>) returns (now: Entry)
    requires e.location < CELLS && 1 <= e.onLength <= 0x8000 && 1 <= e.offLength <= 0x8000
    requires forall i :: 0 <= i < |ops| ==> !Touches(ops[i], e.location)
    ensures Finds(ApplyAll(Apply(es, Add(e)), ops), e.location, now)
    ensures SameChoice(now, e)
    ensures IsOn(now) <==> InOnPhase(e, CountTicks(ops))
  {
    FreshIsFound(es, e);
    now := UntouchedRun(Apply(es, Add(e)), ops, e.location, Fresh(e), 0);
    TicksKeepChoice(Fresh(e), CountTicks(ops));
    OnExactlyWhen(e, CountTicks(ops));
  }

  lemma FreshIsFound(es: seq<Entry>, e: Entry)
    requires e.location < CELLS
    ensures Finds(Apply(es, Add(e)), e.location, Ticked(Fresh(e), 0))
  {
    IndexIs(Apply(es, Add(e)), e.location, 0);
  }

  lemma SyncSets(es: seq<Entry>, from: Half, to: Half) returns (a: Entry, b: Entry)
    requires IndexOf(es, from) < |es| && IndexOf(es, to) < |es|
    ensures Finds(Apply(es, Sync(from, to)), from, a) && Finds(Apply(es, Sync(from, to)), to, b) && SameTiming(a, b)
    ensures Finds(es, from, a)
    ensures var was := es[IndexOf(es, to)];
            b.location == was.location && b.onChar == was.onChar && b.offChar == was.offChar
  {
    var es1 := Apply(es, Sync(from, to));
    IndexIs(es1, from, IndexOf(es, from));
    IndexIs(es1, to, IndexOf(es, to));
    a, b := es1[IndexOf(es, from)], es1[IndexOf(es, to)];
  }

  /** Main result: once synchronised, two entries keep equal timing until one of them is touched. */
  lemma SyncedEntriesStay(es: seq<Entry>, from: Half, to: Half, ops: seq<Op>) returns (a: Entry, b: Entry)
    requires IndexOf(es, from) < |es| && IndexOf(es, to) < |es|
    requires forall i :: 0 <= i < |ops| ==> !Touches(ops[i], from) && !Touches(ops[i], to)
    ensures Finds(ApplyAll(Apply(es, Sync(from, to)), ops), from, a)
    ensures Finds(ApplyAll(Apply(es, Sync(from, to)), ops), to, b)
    ensures SameTiming(a, b)
    ensures a == Ticked(es[IndexOf(es, from)], CountTicks(ops))
    ensures var was := es[IndexOf(es, to)];
            b.location == was.location && b.onChar == was.onChar && b.offChar == was.offChar
  {
    var a0, b0 := SyncSets(es, from, to);
    var es1 := Apply(es, Sync(from, to));
    a := UntouchedRun(es1, ops, from, a0, 0);
    b := UntouchedRun(es1, ops, to, b0, 0);
    SameTimingStays(a0, b0, CountTicks(ops));
    TicksKeepChoice(b0, CountTicks(ops));
  }

  /** Removing takes away the entry found there, and no other. */
  lemma RemovedIsGone(es: seq<Entry>, loc: Half, other: int, e: Entry)
    requires Apart(es) && other != loc
    ensures IndexOf(Apply(es, Remove(loc)), loc) == |Apply(es, Remove(loc))|
    ensures Finds(es, other, e) ==> Finds(Apply(es, Remove(loc)), other, e)
  {
    var k := IndexOf(es, loc);
    if Finds(es, other, e) { Untouched(es, Remove(loc), other, e); }
    if k < |es| {
      var es' := Apply(es, Remove(loc));
      assert forall i :: 0 <= i < |es'| ==> es'[i] == es[if i < k then i else i + 1];
    }
  }

  /** The character an entry should show. */
  function Glyph(e: Entry): Byte { if IsOn(e) then e.onChar else e.offChar }

  predicate InRange(es: seq<Entry>) { forall i :: 0 <= i < |es| ==> es[i].location < CELLS }

  predicate Apart(es: seq<Entry>) { forall i, j :: 0 <= i < j < |es| ==> es[i].location != es[j].location }

  predicate Painted(es: seq<Entry>, cells: Bytes) {
    |cells| == CELLS && InRange(es) && forall i :: 0 <= i < |es| ==> cells[es[i].location] == Glyph(es[i])
  }

  /** The tasklet pokes a cell only when its entry toggles. */
  function PokeTick(e: Entry, cells: Bytes): (r: Bytes)
    requires |cells| == CELLS && e.location < CELLS
    ensures |r| == CELLS
  {
    if TickEntry(e).status == e.status then cells else cells[e.location := Glyph(TickEntry(e))]
  }

  lemma PokeTickIs(e: Entry, cells: Bytes)
    requires |cells| == CELLS && e.location < CELLS
    ensures PokeTick(e, cells) == if Positive(Decremented(e.countdown)) then cells
                                  else cells[e.location := if IsOn(e) then e.offChar else e.onChar]
  {
  }

  function PokeTicks(es: seq<Entry>, cells: Bytes): (r: Bytes)
    requires |cells| == CELLS && InRange(es)
    ensures |r| == CELLS
    decreases |es|
  {
    if es == [] then cells else PokeTicks(es[1..], PokeTick(es[0], cells))
  }

  lemma {:induction false} PokeTicksAt(es: seq<Entry>, cells: Bytes, loc: int)
    requires |cells| == CELLS && InRange(es) && 0 <= loc < CELLS && forall i :: 0 <= i < |es| ==> es[i].location != loc
    ensures PokeTicks(es, cells)[loc] == cells[loc]
    decreases |es|
  {
    if es != [] { PokeTicksAt(es[1..], PokeTick(es[0], cells), loc); }
  }

  /** A tick keeps the screen in step with every entry's status, as long as locations are distinct. */
  lemma {:induction false} TickPaints(es: seq<Entry>, cells: Bytes)
    requires Painted(es, cells) && Apart(es)
    ensures Painted(TickAll(es), PokeTicks(es, cells))
    decreases |es|
  {
    if es != [] {
      var cells1 := PokeTick(es[0], cells);
      assert Painted(es[1..], cells1);
      TickPaints(es[1..], cells1);
      PokeTicksAt(es[1..], cells1, es[0].location);
      assert TickAll(es)[0] == TickEntry(es[0]);
      forall i | 0 <= i < |es| ensures PokeTicks(es, cells)[TickAll(es)[i].location] == Glyph(TickAll(es)[i]) {
        if i > 0 { assert TickAll(es)[i] == TickAll(es[1..])[i - 1]; }
      }
    }
  }

  /** The characters on screen after an operation. */
  function Poked(es: seq<Entry>, cells: Bytes, op: Op): (r: Bytes)
    requires |cells| == CELLS && InRange(es)
    ensures |r| == CELLS
  {
    match op
    case Add(e) => if e.location < CELLS then cells[e.location := e.onChar] else cells
    case Remove(_) => cells
    case Sync(from, to) =>
      var i, j := IndexOf(es, from), IndexOf(es, to);
      if i == |es| || j == |es| then cells else cells[to := es[j].offChar]
    case Tick => PokeTicks(es, cells)
  }

  lemma ApplyInRange(es: seq<Entry>, op: Op)
    requires InRange(es)
    ensures InRange(Apply(es, op))
  {
  }

  function PokedAll(es: seq<Entry>, cells: Bytes, ops: seq<Op>): (r: Bytes)
    requires |cells| == CELLS && InRange(es)
    ensures |r| == CELLS
    decreases |ops|
  {
    if ops == [] then cells
    else
      ApplyInRange(es, ops[0]);
      PokedAll(Apply(es, ops[0]), Poked(es, cells, ops[0]), ops[1..])
  }

  /** A tick changes the cell of a location that only one entry has as that entry toggles. */
  lemma {:induction false} TickShows(es: seq<Entry>, cells: Bytes, k: int)
    requires |cells| == CELLS && InRange(es) && Apart(es) && 0 <= k < |es| && cells[es[k].location] == Glyph(es[k])
    ensures PokeTicks(es, cells)[es[k].location] == Glyph(TickEntry(es[k]))
    decreases |es|
  {
    var cells1 := PokeTick(es[0], cells);
    if k == 0 {
      PokeTicksAt(es[1..], cells1, es[0].location);
    } else {
      assert es[0].location != es[k].location && es[1..][k - 1] == es[k];
      TickShows(es[1..], cells1, k - 1);
    }
  }

  /** An operation that does not touch a location keeps its cell in step with its entry. */
  lemma UntouchedShows(es: seq<Entry>, cells: Bytes, op: Op, e: Entry)
    requires |cells| == CELLS && InRange(es) && Apart(es) && Finds(es, e.location, e) && !Touches(op, e.location)
    requires cells[e.location] == Glyph(e)
    ensures Poked(es, cells, op)[e.location] == Glyph(if op.Tick? then TickEntry(e) else e)
  {
    if op.Tick? { TickShows(es, cells, IndexOf(es, e.location)); }
  }

  /** sync pokes the off-character whatever the status: the conditional move tests a flag `testb` never sets. */
  lemma SyncPaintsIff(es: seq<Entry>, cells: Bytes, from: Half, to: Half)
    requires Painted(es, cells) && Apart(es) && IndexOf(es, from) < |es| && IndexOf(es, to) < |es|
    ensures var a, b := es[IndexOf(es, from)], es[IndexOf(es, to)];
            Painted(Apply(es, Sync(from, to)), Poked(es, cells, Sync(from, to))) <==> !IsOn(a) || b.onChar == b.offChar
  {
    var i, j := IndexOf(es, from), IndexOf(es, to);
    var a, b := es[i], es[j];
    var es', cells' := Apply(es, Sync(from, to)), cells[to := b.offChar];
    assert es'[j] == Synced(a, b);
    if !IsOn(a) || b.onChar == b.offChar {
      forall k | 0 <= k < |es'| ensures cells'[es'[k].location] == Glyph(es'[k]) {
        assert k != j ==> es[k].location != to;
      }
    }
  }
}
