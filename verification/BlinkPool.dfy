/** The blink list on its fixed pool: links in slots, `location == 0` as the free mark (blink.S, fish.c). */
module BlinkPool {
  import opened Words
  import opened Blink

  const NIL := -1

  datatype Node = Node(entry: Entry, next: int)

  const ZERO := Node(Entry(0, 0, 0, 0, 0, 0, 0), NIL)

  function At(list: seq<int>, i: int): int
    requires 0 <= i
  {
    if i < |list| then list[i] else NIL
  }

  /** The links from `head` run through exactly these slots. */
  ghost predicate IsList(pool: seq<Node>, head: int, list: seq<int>) {
    && |pool| == CELLS && Distinct(list) && head == At(list, 0)
    && (forall i :: 0 <= i < |list| ==> 0 <= list[i] < CELLS)
    && (forall i {:trigger pool[list[i]]} :: 0 <= i < |list| ==> pool[list[i]].next == At(list, i + 1))
  }

  /** The slots with a non-zero location are exactly those on the list. */
  ghost predicate Marked(pool: seq<Node>, list: seq<int>) {
    forall p :: 0 <= p < |pool| ==> (pool[p].entry.location != 0 <==> p in list) && pool[p].entry.location < CELLS
  }

  lemma NextIs(pool: seq<Node>, head: int, list: seq<int>, i: int)
    requires IsList(pool, head, list) && 0 <= i < |list|
    ensures 0 <= list[i] < CELLS && pool[list[i]].next == At(list, i + 1)
  {
  }

  ghost function Entries(pool: seq<Node>, list: seq<int>): (r: seq<Entry>)
    requires forall i :: 0 <= i < |list| ==> 0 <= list[i] < |pool|
    ensures |r| == |list|
  {
    seq(|list|, i requires 0 <= i < |list| => pool[list[i]].entry)
  }

  /** Taking a slot off the list. */
  function Without(list: seq<int>, k: int): seq<int>
    requires 0 <= k < |list|
  {
    list[..k] + list[k + 1..]
  }

  lemma PushedLinks(pool: seq<Node>, head: int, list: seq<int>, p: int, e: Entry)
    requires IsList(pool, head, list) && 0 <= p < CELLS && p !in list
    ensures IsList(pool[p := Node(e, head)], p, [p] + list)
  {
    var pool', list' := pool[p := Node(e, head)], [p] + list;
    forall i | 0 <= i < |list'| ensures 0 <= list'[i] < CELLS && pool'[list'[i]].next == At(list', i + 1) {
      if i > 0 {
        assert list'[i] == list[i - 1] && list[i - 1] in list;
        NextIs(pool, head, list, i - 1);
      }
    }
  }

  lemma PushedEntries(pool: seq<Node>, list: seq<int>, p: int, n: Node)
    requires 0 <= p < |pool| && p !in list && forall i :: 0 <= i < |list| ==> 0 <= list[i] < |pool|
    ensures forall i :: 0 <= i < |[p] + list| ==> 0 <= ([p] + list)[i] < |pool|
    ensures Entries(pool[p := n], [p] + list) == [n.entry] + Entries(pool, list)
  {
    var list' := [p] + list;
    assert forall i :: 0 <= i < |list'| ==> list'[i] == if i == 0 then p else list[i - 1];
    var now, was := Entries(pool[p := n], list'), Entries(pool, list);
    forall i | 0 <= i < |now| ensures now[i] == ([n.entry] + was)[i] {
      if i > 0 { assert list[i - 1] in list; }
    }
  }

  lemma Pushed(pool: seq<Node>, head: int, list: seq<int>, p: int, e: Entry)
    requires IsList(pool, head, list) && Marked(pool, list) && 0 <= p < CELLS && pool[p].entry.location == 0
    ensures IsList(pool[p := Node(e, head)], p, [p] + list)
    ensures Entries(pool[p := Node(e, head)], [p] + list) == [e] + Entries(pool, list)
    ensures e.location != 0 && e.location < CELLS ==> Marked(pool[p := Node(e, head)], [p] + list)
  {
    assert p !in list;
    PushedLinks(pool, head, list, p, e);
    PushedEntries(pool, list, p, Node(e, head));
    forall q | 0 <= q < CELLS ensures q in [p] + list <==> q == p || q in list {}
  }

  /** Unlinking slot list[k]: the cell before it, or the head, now holds its successor. */
  function Unlinked(pool: seq<Node>, list: seq<int>, k: int): seq<Node>
    requires 0 <= k < |list| && forall i :: 0 <= i < |list| ==> 0 <= list[i] < |pool|
  {
    var pool1 := if k == 0 then pool else pool[list[k - 1] := pool[list[k - 1]].(next := At(list, k + 1))];
    pool1[list[k] := ZERO]
  }

  function Shifted(i: int, k: int): int { if i < k then i else i + 1 }

  lemma WithoutAt(list: seq<int>, k: int, i: int)
    requires 0 <= k < |list| && 0 <= i < |list| - 1
    ensures Without(list, k)[i] == list[Shifted(i, k)]
  {
  }

  lemma WithoutHas(list: seq<int>, k: int, p: int)
    requires 0 <= k < |list| && Distinct(list)
    ensures p in Without(list, k) <==> p in list && p != list[k]
    ensures Distinct(Without(list, k))
  {
    var list' := Without(list, k);
    forall i | 0 <= i < |list'| ensures list'[i] == list[Shifted(i, k)] { WithoutAt(list, k, i); }
    if p in list && p != list[k] {
      var i :| 0 <= i < |list| && list[i] == p;
      assert list'[if i < k then i else i - 1] == p;
    }
  }

  lemma UnlinkedAt(pool: seq<Node>, head: int, list: seq<int>, k: int, q: int)
    requires IsList(pool, head, list) && 0 <= k < |list| && 0 <= q < CELLS && q != list[k]
    ensures Unlinked(pool, list, k)[q] ==
            if k > 0 && q == list[k - 1] then pool[q].(next := At(list, k + 1)) else pool[q]
  {
  }

  lemma RemovedLinks(pool: seq<Node>, head: int, list: seq<int>, k: int, i: int)
    requires IsList(pool, head, list) && 0 <= k < |list| && 0 <= i < |list| - 1
    ensures var pool', p := Unlinked(pool, list, k), Without(list, k)[i];
            && 0 <= p < CELLS && pool'[p].next == At(Without(list, k), i + 1)
            && pool'[p].entry == pool[list[Shifted(i, k)]].entry
  {
    var j := Shifted(i, k);
    WithoutAt(list, k, i);
    if i + 1 < |list| - 1 { WithoutAt(list, k, i + 1); }
    assert list[j] != list[k];
    UnlinkedAt(pool, head, list, k, list[j]);
    assert k > 0 && list[j] == list[k - 1] <==> i + 1 == k;
    assert At(Without(list, k), i + 1) == if i + 1 == k then At(list, k + 1) else At(list, j + 1);
  }

  lemma RemovedIsList(pool: seq<Node>, head: int, list: seq<int>, k: int)
    requires IsList(pool, head, list) && 0 <= k < |list|
    ensures IsList(Unlinked(pool, list, k), if k == 0 then At(list, 1) else head, Without(list, k))
  {
    var pool', list' := Unlinked(pool, list, k), Without(list, k);
    WithoutHas(list, k, list[k]);
    forall i | 0 <= i < |list'| ensures 0 <= list'[i] < CELLS && pool'[list'[i]].next == At(list', i + 1) {
      RemovedLinks(pool, head, list, k, i);
    }
    if |list'| > 0 { WithoutAt(list, k, 0); }
  }

  lemma RemovedEntries(pool: seq<Node>, head: int, list: seq<int>, loc: Half)
    requires IsList(pool, head, list) && IndexOf(Entries(pool, list), loc) < |list|
    ensures var k := IndexOf(Entries(pool, list), loc);
            && (forall i :: 0 <= i < |list| - 1 ==> 0 <= Without(list, k)[i] < CELLS)
            && Entries(Unlinked(pool, list, k), Without(list, k)) == Apply(Entries(pool, list), Blink.Remove(loc))
  {
    var all := Entries(pool, list);
    var k := IndexOf(all, loc);
    forall i | 0 <= i < |list| - 1 ensures 0 <= Without(list, k)[i] < CELLS { RemovedLinks(pool, head, list, k, i); }
    var now, cut := Entries(Unlinked(pool, list, k), Without(list, k)), all[..k] + all[k + 1..];
    forall i | 0 <= i < |list| - 1 ensures now[i] == cut[i] {
      RemovedLinks(pool, head, list, k, i);
      assert cut[i] == all[Shifted(i, k)];
    }
    assert now == cut;
  }

  lemma RemovedMarks(pool: seq<Node>, head: int, list: seq<int>, k: int)
    requires IsList(pool, head, list) && Marked(pool, list) && 0 <= k < |list|
    ensures Marked(Unlinked(pool, list, k), Without(list, k))
  {
    forall p | 0 <= p < CELLS
      ensures var pool' := Unlinked(pool, list, k);
              (pool'[p].entry.location != 0 <==> p in Without(list, k)) && pool'[p].entry.location < CELLS
    {
      WithoutHas(list, k, p);
    }
  }

  /** Changing an entry's timing keeps links and marks. */
  lemma Retimed(pool: seq<Node>, head: int, list: seq<int>, k: int, e: Entry)
    requires IsList(pool, head, list) && Marked(pool, list) && 0 <= k < |list|
    requires e.location == pool[list[k]].entry.location
    ensures var pool' := pool[list[k] := pool[list[k]].(entry := e)];
            IsList(pool', head, list) && Marked(pool', list) && Entries(pool', list) == Entries(pool, list)[k := e]
  {
    var pool' := pool[list[k] := pool[list[k]].(entry := e)];
    forall i | 0 <= i < |list| ensures Entries(pool', list)[i] == Entries(pool, list)[k := e][i] {}
  }

  /** Distinct numbers below n are at most n many. */
  lemma {:induction false} AtMost(s: seq<int>, n: nat)
    requires Distinct(s) && forall i :: 0 <= i < |s| ==> 0 <= s[i] < n
    ensures |s| <= n
    decreases n
  {
    if s == [] { return; }
    assert 0 <= s[0] < n;
    if n - 1 in s {
      var k :| 0 <= k < |s| && s[k] == n - 1;
      var s' := s[..k] + s[k + 1..];
      assert forall i :: 0 <= i < |s'| ==> s'[i] == if i < k then s[i] else s[i + 1];
      AtMost(s', n - 1);
    } else {
      AtMost(s, n - 1);
    }
  }

  /** A sequence that contains every number below n has at least n elements. */
  lemma {:induction false} AtLeast(s: seq<int>, n: nat)
    requires forall p :: 0 <= p < n ==> p in s
    ensures |s| >= n
    decreases n
  {
    if n > 0 {
      assert n - 1 in s;
      var k :| 0 <= k < |s| && s[k] == n - 1;
      var s' := s[..k] + s[k + 1..];
      forall p | 0 <= p < n - 1 ensures p in s' {
        assert p in s;
        var i :| 0 <= i < |s| && s[i] == p;
        assert s'[if i < k then i else i - 1] == p;
      }
      AtLeast(s', n - 1);
    }
  }

  /** Pigeonhole: with distinct live locations, all in 1..1999, one of the 2000 slots is free. */
  lemma SomeSlotFree(pool: seq<Node>, head: int, list: seq<int>)
    requires IsList(pool, head, list) && Marked(pool, list)
    requires forall i, j :: 0 <= i < j < |list| ==> pool[list[i]].entry.location != pool[list[j]].entry.location
    ensures exists p :: 0 <= p < CELLS && pool[p].entry.location == 0
  {
    var locations := seq(|list|, i requires 0 <= i < |list| => pool[list[i]].entry.location - 1);
    forall i | 0 <= i < |list| ensures 0 <= locations[i] < CELLS - 1 { assert list[i] in list; }
    AtMost(locations, CELLS - 1);
    if forall p :: 0 <= p < CELLS ==> pool[p].entry.location != 0 {
      AtLeast(list, CELLS);
    }
  }

  /** An add on the screen, but not at the corner cell, where no entry is live. */
  predicate Welcome(es: seq<Entry>, op: Op) {
    op.Add? ==> 1 <= op.e.location < CELLS && IndexOf(es, op.e.location) == |es|
  }

  predicate AllWelcome(es: seq<Entry>, ops: seq<Op>)
    decreases |ops|
  {
    ops != [] ==> Welcome(es, ops[0]) && AllWelcome(Apply(es, ops[0]), ops[1..])
  }

  lemma WelcomeKeepsApart(es: seq<Entry>, op: Op)
    requires Apart(es) && Welcome(es, op)
    ensures Apart(Apply(es, op))
  {
    var es' := Apply(es, op);
    match op {
      case Add(e) =>
        assert forall i :: 0 <= i < |es'| ==> es'[i].location == (if i == 0 then e else es[i - 1]).location;
      case Remove(loc) =>
        var k := IndexOf(es, loc);
        assert k < |es| ==> forall i :: 0 <= i < |es'| ==> es'[i] == es[Shifted(i, k)];
      case Sync(_, _) => assert |es'| == |es| && forall i :: 0 <= i < |es| ==> es'[i].location == es[i].location;
      case Tick => assert |es'| == |es| && forall i :: 0 <= i < |es| ==> es'[i].location == es[i].location;
    }
  }

  /** Over a welcome run that does not touch it, a cell stays in step with its entry. */
  lemma {:induction false} RunShows(es: seq<Entry>, cells: Bytes, ops: seq<Op>, e: Entry, n: nat)
    requires |cells| == CELLS && InRange(es) && Apart(es) && AllWelcome(es, ops) && e.location < CELLS
    requires Finds(es, e.location, Ticked(e, n)) && cells[e.location] == Glyph(Ticked(e, n))
    requires forall i :: 0 <= i < |ops| ==> !Touches(ops[i], e.location)
    ensures PokedAll(es, cells, ops)[e.location] == Glyph(Ticked(e, n + CountTicks(ops)))
    decreases |ops|
  {
    hide Apply, Poked, Glyph, Finds, IndexOf, TickEntry, Apart, InRange, Touches, Welcome;
    if ops != [] {
      TicksKeepChoice(e, n);
      ApplyInRange(es, ops[0]);
      WelcomeKeepsApart(es, ops[0]);
      Untouched(es, ops[0], e.location, Ticked(e, n));
      UntouchedShows(es, cells, ops[0], Ticked(e, n));
      RunShows(Apply(es, ops[0]), Poked(es, cells, ops[0]), ops[1..], e, if ops[0].Tick? then n + 1 else n);
    }
  }

  lemma AddedCellShows(es: seq<Entry>, cells: Bytes, e: Entry, ops: seq<Op>)
    requires |cells| == CELLS && InRange(es) && Apart(es) && AllWelcome(es, [Add(e)] + ops)
    requires forall i :: 0 <= i < |ops| ==> !Touches(ops[i], e.location)
    ensures e.location < CELLS
    ensures PokedAll(es, cells, [Add(e)] + ops)[e.location] == Glyph(Ticked(Fresh(e), CountTicks(ops)))
  {
    hide Apply, Finds, IndexOf, TickEntry, Apart, InRange, Touches;
    assert ([Add(e)] + ops)[1..] == ops;
    ApplyInRange(es, Add(e));
    WelcomeKeepsApart(es, Add(e));
    FreshIsFound(es, e);
    RunShows(Apply(es, Add(e)), Poked(es, cells, Add(e)), ops, Fresh(e), 0);
  }

  /** Main result: after an add to a list of distinct locations, and any welcome run that does not touch its location,
      the cell shows the on-character in the first onLength of every onLength + offLength ticks and the off-character
      in the others. */
  lemma AddedCellBlinks(es: seq<Entry>, cells: Bytes, e: Entry, ops: seq<Op>)
    requires |cells| == CELLS && InRange(es) && Apart(es) && AllWelcome(es, [Add(e)] + ops)
    requires 1 <= e.onLength <= 0x8000 && 1 <= e.offLength <= 0x8000
    requires forall i :: 0 <= i < |ops| ==> !Touches(ops[i], e.location)
    ensures var n := CountTicks(ops);
            e.location < CELLS && PokedAll(es, cells, [Add(e)] + ops)[e.location] ==
                                  if n % (e.onLength + e.offLength) < e.onLength then e.onChar else e.offChar
  {
    hide Apply, Poked, PokedAll, IndexOf, TickEntry, Ticked, Apart, InRange, Touches, AllWelcome;
    AddedCellShows(es, cells, e, ops);
    TicksKeepChoice(Fresh(e), CountTicks(ops));
    OnExactlyWhen(e, CountTicks(ops));
  }

  /** The same on the pool and the screen themselves. */
  method AddThenRun(pool: Pool, e: Entry, ops: seq<Op>)
    requires pool.Valid() && Apart(pool.Abs()) && AllWelcome(pool.Abs(), [Add(e)] + ops)
    requires 1 <= e.onLength <= 0x8000 && 1 <= e.offLength <= 0x8000
    requires forall i :: 0 <= i < |ops| ==> !Touches(ops[i], e.location)
    modifies pool, pool.slots, pool.cells
    ensures pool.Valid() && e.location < CELLS
    ensures var n := CountTicks(ops);
            pool.cells[e.location] == if n % (e.onLength + e.offLength) < e.onLength then e.onChar else e.offChar
  {
    pool.AbsInRange();
    AddedCellBlinks(pool.Abs(), pool.cells[..], e, ops);
    var _ := pool.Run([Add(e)] + ops);
  }

  /** mp1_malloc's choice. */
  predicate IsFirstFree(pool: seq<Node>, p: int) {
    0 <= p < |pool| && pool[p].entry.location == 0 && forall q :: 0 <= q < p ==> pool[q].entry.location != 0
  }

  /** After an add at location 0 the next add, wherever it is, takes the same slot, and the list becomes a cycle:
      no sequence of slots is what the links run through. */
  method AddTwice(pool: Pool, a: Entry, b: Entry) returns (first: int, second: int)
    requires pool.Valid() && a.location == 0 && b.location < CELLS
    modifies pool, pool.slots, pool.cells
    ensures first == second
    ensures first == -1 <==> forall q :: 0 <= q < CELLS ==> old(pool.slots[q].entry.location) != 0
    ensures first == 0 ==> 0 <= pool.head < CELLS && pool.slots[pool.head].next == pool.head
    ensures first == 0 ==> forall l :: !IsList(pool.slots[..], pool.head, l)
  {
    first := pool.Add(a);
    ghost var pool1, p := pool.slots[..], pool.head;
    assert first == 0 ==> pool1[p].entry.location == 0 && pool.slots[p].entry.location == 0;
    second := pool.Add(b);
    if first == 0 {
      assert pool.head == p;
      forall l ensures !IsList(pool.slots[..], pool.head, l) { SelfLoop(pool.slots[..], pool.head, l); }
    }
  }

  lemma SelfLoop(pool: seq<Node>, p: int, l: seq<int>)
    requires 0 <= p < |pool| && pool[p].next == p
    ensures !IsList(pool, p, l)
  {
    if |l| > 0 && l[0] == p {
      assert pool[l[0]].next == p;
      assert Distinct(l) && |l| >= 2 ==> l[0] != l[1];
    }
  }

  class Pool {
    const slots: array<Node>        // blink_array
    const cells: array<Byte>        // characters of the screen behind vmem_base_addr
    var head: int                   // mp1_list_head
    ghost var list: seq<int>

    ghost predicate Valid()
      reads this, slots, cells
    {
      && slots.Length == cells.Length == CELLS
      && IsList(slots[..], head, list)
      && Marked(slots[..], list)
    }

    ghost function Abs(): seq<Entry>
      requires Valid()
      reads this, slots, cells
    {
      Entries(slots[..], list)
    }

    constructor (cells: array<Byte>)
      requires cells.Length == CELLS
      ensures Valid() && Abs() == [] && fresh(slots) && this.cells == cells
    {
      slots := new Node[CELLS](_ => ZERO);
      this.cells := cells;
      head := NIL;
      list := [];
    }

    /** mp1_malloc */
    method Malloc() returns (p: int)
      requires slots.Length == CELLS
      ensures p == NIL ==> forall q :: 0 <= q < CELLS ==> slots[q].entry.location != 0
      ensures p != NIL ==> 0 <= p < CELLS && slots[p].entry.location == 0
      ensures p != NIL ==> forall q :: 0 <= q < p ==> slots[q].entry.location != 0
    {
      var i := 0;
      while i < CELLS
        invariant 0 <= i <= CELLS && forall q :: 0 <= q < i ==> slots[q].entry.location != 0
      {
        if slots[i].entry.location == 0 { return i; }
        i := i + 1;
      }
      return NIL;
    }

    /** mp1_ioctl_add, on whatever links the slots hold. A non-zero location keeps a list; location 0 leaves its slot
        marked free. */
    method Add(e: Entry) returns (code: int)
      requires slots.Length == cells.Length == CELLS
      modifies this, slots, cells
      ensures code == -1 ==> slots[..] == old(slots[..]) && cells[..] == old(cells[..])
      ensures code == -1 ==> head == old(head) && list == old(list)
      ensures code == 0 || code == -1
      ensures code == -1 <==> e.location >= CELLS || forall q :: 0 <= q < CELLS ==> old(slots[q].entry.location) != 0
      ensures old(Valid()) && e.location != 0 ==> Valid()
      ensures old(Valid()) && e.location != 0 && code == 0 ==> Abs() == Apply(old(Abs()), Blink.Add(e))
      ensures code == 0 ==> cells[..] == old(cells[..])[e.location := e.onChar]
      ensures code == 0 ==> IsFirstFree(old(slots[..]), head)
      ensures code == 0 ==> slots[..] == old(slots[..])[head := Node(Fresh(e), old(head))]
      ensures code == 0 && e.location == 0 ==> !Marked(slots[..], list)
    {
      if e.location >= CELLS { return -1; }
      var n := Fresh(e);
      var p := Malloc();
      if p == NIL { return -1; }
      if Valid() { Pushed(slots[..], head, list, p, n); }
      slots[p] := Node(n, head);
      head := p;
      list := [p] + list;
      assert p in list;
      cells[n.location] := n.onChar;
      return 0;
    }

    /** mp1_find_helper */
    method Find(loc: Half) returns (p: int)
      requires Valid()
      ensures p == At(list, IndexOf(Abs(), loc))
      ensures p != NIL <==> IndexOf(Abs(), loc) < |list|
    {
      p := head;
      ghost var i, pool, es := 0, slots[..], Abs();
      while p != NIL
        invariant 0 <= i <= |list| && p == At(list, i)
        invariant forall k :: 0 <= k < i ==> es[k].location != loc
        decreases |list| - i
      {
        NextIs(pool, head, list, i);
        assert es[i] == slots[p].entry;
        if slots[p].entry.location == loc {
          IndexIs(es, loc, i);
          return;
        }
        p := slots[p].next;
        i := i + 1;
      }
      assert i == |list|;
    }

    /** The search for the pointer that leads to p: NIL stands for the list head itself. */
    method FindPrevious(p: int, ghost k: int) returns (prev: int)
      requires Valid() && 0 <= k < |list| && list[k] == p
      ensures prev == if k == 0 then NIL else list[k - 1]
    {
      prev := NIL;
      var cell := head;
      ghost var i := 0;
      while cell != p
        invariant 0 <= i <= k && cell == list[i] && prev == if i == 0 then NIL else list[i - 1]
        decreases k - i
      {
        prev := cell;
        cell := slots[cell].next;
        i := i + 1;
      }
    }

    /** mp1_ioctl_remove */
    method Remove(loc: Half) returns (code: int)
      requires Valid()
      modifies this, slots
      ensures Valid() && Abs() == Apply(old(Abs()), Blink.Remove(loc))
      ensures code == if IndexOf(old(Abs()), loc) < |old(list)| then 0 else -1
    {
      var p := Find(loc);
      if p == NIL { return -1; }
      ghost var k := IndexOf(Abs(), loc);
      ghost var pool0, list0 := slots[..], list;
      var prev := FindPrevious(p, k);
      RemovedIsList(slots[..], head, list, k);
      RemovedMarks(slots[..], head, list, k);
      RemovedEntries(slots[..], head, list, loc);
      var after := slots[p].next;
      if prev == NIL { head := after; } else { slots[prev] := slots[prev].(next := after); }
      slots[p] := ZERO;
      list := Without(list, k);
      assert slots[..] == Unlinked(pool0, list0, k);
      return 0;
    }

    /** mp1_ioctl_sync */
    method Sync(from: Half, to: Half) returns (code: int)
      requires Valid()
      modifies slots, cells
      ensures Valid() && Abs() == Apply(old(Abs()), Blink.Sync(from, to))
      ensures code == if IndexOf(old(Abs()), from) < |list| && IndexOf(old(Abs()), to) < |list| then 0 else -1
      ensures cells[..] == if code == 0 then old(cells[..])[to := old(Abs())[IndexOf(old(Abs()), to)].offChar]
                           else old(cells[..])
    {
      var p := Find(from);
      if p == NIL { return -1; }
      var q := Find(to);
      if q == NIL { return -1; }
      ghost var i, j := IndexOf(Abs(), from), IndexOf(Abs(), to);
      assert Abs()[i] == slots[p].entry && Abs()[j] == slots[q].entry;
      var e := Synced(slots[p].entry, slots[q].entry);
      Retimed(slots[..], head, list, j, e);
      slots[q] := slots[q].(entry := e);
      cells[e.location] := e.offChar;
      return 0;
    }

    /** mp1_rtc_tasklet */
    method Tick()
      requires Valid()
      modifies slots, cells
      ensures Valid() && Abs() == TickAll(old(Abs()))
      ensures InRange(old(Abs())) && cells[..] == PokeTicks(old(Abs()), old(cells[..]))
    {
      ghost var es := Abs();
      forall k | 0 <= k < |es| ensures es[k].location < CELLS { assert list[k] in list; }
      var p := head;
      ghost var i := 0;
      while p != NIL
        invariant Valid() && 0 <= i <= |list| && p == At(list, i)
        invariant Walked(es, Abs(), i)
        invariant PokeTicks(es[i..], cells[..]) == PokeTicks(es, old(cells[..]))
        decreases |list| - i
      {
        assert es[i..][0] == es[i] && es[i..][1..] == es[i + 1..];
        ghost var before := Abs();
        TickNode(p, i);
        WalkedOn(es, before, Abs(), i);
        p := slots[p].next;
        i := i + 1;
      }
    }

    lemma AbsInRange()
      requires Valid()
      ensures InRange(Abs())
    {
      forall k | 0 <= k < |Abs()| ensures Abs()[k].location < CELLS { assert list[k] in list; }
    }

    /** One operation; a welcome add always finds a slot. */
    method Do(op: Op) returns (code: int)
      requires Valid() && Apart(Abs()) && Welcome(Abs(), op)
      modifies this, slots, cells
      ensures Valid() && Abs() == Apply(old(Abs()), op) && Apart(Abs())
      ensures op.Add? ==> code == 0
      ensures InRange(old(Abs())) && cells[..] == Poked(old(Abs()), old(cells[..]), op)
    {
      WelcomeKeepsApart(Abs(), op);
      AbsInRange();
      code := 0;
      match op {
        case Add(e) =>
          ApartIsDistinct(slots[..], list);
          SomeSlotFree(slots[..], head, list);
          code := Add(e);
        case Remove(loc) => code := Remove(loc);
        case Sync(from, to) => code := Sync(from, to);
        case Tick => Tick();
      }
    }

    /** Main result: while every added location is in 1..1999 and not live, no add ever fails, live locations stay
        distinct, and the pool holds exactly the list of the abstract run. */
    method Run(ops: seq<Op>) returns (codes: seq<int>)
      requires Valid() && Apart(Abs()) && AllWelcome(Abs(), ops)
      modifies this, slots, cells
      ensures Valid() && Abs() == ApplyAll(old(Abs()), ops) && Apart(Abs())
      ensures |codes| == |ops| && forall i :: 0 <= i < |ops| && ops[i].Add? ==> codes[i] == 0
      ensures InRange(old(Abs())) && cells[..] == PokedAll(old(Abs()), old(cells[..]), ops)
    {
      hide Apply, Poked, Apart, InRange, Welcome;
      AbsInRange();
      ghost var es, shown := Abs(), cells[..];
      codes := [];
      var i := 0;
      while i < |ops|
        invariant 0 <= i == |codes| <= |ops| && Valid() && Apart(Abs()) && AllWelcome(Abs(), ops[i..])
        invariant ApplyAll(Abs(), ops[i..]) == ApplyAll(es, ops)
        invariant forall k :: 0 <= k < i && ops[k].Add? ==> codes[k] == 0
        invariant InRange(Abs()) && PokedAll(Abs(), cells[..], ops[i..]) == PokedAll(es, shown, ops)
      {
        assert ops[i..][1..] == ops[i + 1..];
        var code := Do(ops[i]);
        AbsInRange();
        codes := codes + [code];
        i := i + 1;
      }
    }

    /** One node of the tasklet's walk. */
    method TickNode(p: int, ghost i: int)
      requires Valid() && 0 <= i < |list| && p == list[i]
      modifies slots, cells
      ensures Valid() && Abs() == old(Abs())[i := TickEntry(old(Abs())[i])] && slots[p].next == old(slots[p].next)
      ensures old(Abs())[i].location < CELLS && cells[..] == PokeTick(old(Abs())[i], old(cells[..]))
    {
      var e := slots[p].entry;
      assert Abs()[i] == e && p in list;
      PokeTickIs(e, cells[..]);
      Retimed(slots[..], head, list, i, TickEntry(e));
      var c := Decremented(e.countdown);
      if Positive(c) {
        slots[p] := slots[p].(entry := e.(countdown := c));
      } else if IsOn(e) {
        cells[e.location] := e.offChar;
        slots[p] := slots[p].(entry := e.(countdown := e.offLength, status := Flipped(e.status)));
      } else {
        cells[e.location] := e.onChar;
        slots[p] := slots[p].(entry := e.(countdown := e.onLength, status := Flipped(e.status)));
      }
    }
  }

  lemma ApartIsDistinct(pool: seq<Node>, list: seq<int>)
    requires forall i :: 0 <= i < |list| ==> 0 <= list[i] < |pool|
    requires Apart(Entries(pool, list))
    ensures forall i, j :: 0 <= i < j < |list| ==> pool[list[i]].entry.location != pool[list[j]].entry.location
  {
    forall i, j | 0 <= i < j < |list| ensures pool[list[i]].entry.location != pool[list[j]].entry.location {
      var es := Entries(pool, list);
      assert es[i] == pool[list[i]].entry && es[j] == pool[list[j]].entry;
    }
  }

  /** The walk has ticked the first i entries. */
  ghost predicate Walked(es: seq<Entry>, now: seq<Entry>, i: int) {
    |now| == |es| && forall k :: 0 <= k < |es| ==> now[k] == if k < i then TickEntry(es[k]) else es[k]
  }

  lemma WalkedOn(es: seq<Entry>, before: seq<Entry>, now: seq<Entry>, i: int)
    requires Walked(es, before, i) && 0 <= i < |es| && now == before[i := TickEntry(before[i])]
    ensures Walked(es, now, i + 1)
  {
  }
}
