/** Directory listings over the one read-out index that all processes share. */
module Listings {
  import opened Words
  import opened FileSystem
  import opened Directory
  import opened Descriptors
  import opened FileCalls

  /** The call opens a directory, under whatever name. */
  predicate Opens(img: Bytes, w: World, p: int, c: Call)
    requires GoodInodes(img) && Shaped(w) && Allowed(w, p, c)
  {
    c.OpenCall? && ReplyTo(img, w, p, c).answer.code != -1 && FileType(img, FirstNamed(img, c.name)) == 1
  }

  /** The call reads a directory. */
  predicate Reads(w: World, p: int, c: Call)
    requires Shaped(w) && Allowed(w, p, c)
  {
    c.ReadCall? && 0 <= c.fd < FDT_SIZE && c.fd != 1 && w.tables[p][c.fd].open && w.tables[p][c.fd].driver.Directory?
  }

  /** How many directory reads there have been, by anyone, since the last directory open. */
  function Counted(img: Bytes, w: World, p: int, c: Call, k: nat): nat
    requires GoodInodes(img) && Shaped(w) && Allowed(w, p, c)
  {
    if Opens(img, w, p, c) then 0 else if Reads(w, p, c) then k + 1 else k
  }

  predicate CanCall(img: Bytes, w: World, calls: seq<(int, Call)>) {
    GoodInodes(img) && Shaped(w) && calls != [] && Allowed(w, calls[0].0, calls[0].1)
  }

  function DoFirst(img: Bytes, w: World, calls: seq<(int, Call)>): World
    requires CanCall(img, w, calls)
  {
    Do(img, w, calls[0].0, calls[0].1)
  }

  function CountIn(img: Bytes, w: World, calls: seq<(int, Call)>, k: nat): nat
    decreases |calls|
  {
    if !CanCall(img, w, calls) then k
    else CountIn(img, DoFirst(img, w, calls), calls[1..], Counted(img, w, calls[0].0, calls[0].1, k))
  }

  /** The shared index is at the entry whose number is that count. */
  predicate At(img: Bytes, w: World, k: nat)
    requires Sized(img)
  {
    w.index == Min(k, Dentries(img))
  }

  lemma CallCounts(img: Bytes, w: World, p: int, c: Call, k: nat)
    requires GoodInodes(img) && Shaped(w) && Allowed(w, p, c) && At(img, w, k)
    ensures At(img, Do(img, w, p, c), Counted(img, w, p, c, k))
  {
  }

  /** Main result: over any interleaving of calls by any processes the index is the count. */
  lemma {:induction false} IndexIsCount(img: Bytes, w: World, calls: seq<(int, Call)>, w': World, k: nat)
    requires WellFormed(img) && Inv(img, w) && IsRun(img, w, calls, w') && At(img, w, k)
    ensures At(img, w', CountIn(img, w, calls, k))
    decreases |calls|
  {
    if calls != [] {
      CallKeepsInv(img, w, calls[0].0, calls[0].1);
      CallCounts(img, w, calls[0].0, calls[0].1, k);
      IndexIsCount(img, DoFirst(img, w, calls), calls[1..], w', Counted(img, w, calls[0].0, calls[0].1, k));
    }
  }

  /** The k-th name, or nothing from the end on. */
  function Item(img: Bytes, k: nat): Bytes
    requires Sized(img)
  {
    if k < Dentries(img) then Names(img)[k] else []
  }

  predicate IsMine(call: (int, Call), p: int, fd: int) { call.0 == p && call.1.ReadCall? && call.1.fd == fd }

  /** What the directory reads of process p on descriptor fd return, one after the other. */
  function Listing(img: Bytes, w: World, calls: seq<(int, Call)>, p: int, fd: int): seq<Bytes>
    decreases |calls|
  {
    if !CanCall(img, w, calls) then []
    else
      var mine := IsMine(calls[0], p, fd) && Reads(w, p, calls[0].1);
      (if mine then [ReplyTo(img, w, p, calls[0].1).answer.bytes] else []) +
      Listing(img, DoFirst(img, w, calls), calls[1..], p, fd)
  }

  /** The counts at which those reads happen. */
  function Turns(img: Bytes, w: World, calls: seq<(int, Call)>, p: int, fd: int, k: nat): seq<nat>
    decreases |calls|
  {
    if !CanCall(img, w, calls) then []
    else
      (if IsMine(calls[0], p, fd) && Reads(w, p, calls[0].1) then [k] else []) +
      Turns(img, DoFirst(img, w, calls), calls[1..], p, fd, Counted(img, w, calls[0].0, calls[0].1, k))
  }

  /** A directory read returns the entry whose number is the count. */
  lemma ReadGivesItem(img: Bytes, w: World, p: int, c: Call, k: nat)
    requires GoodInodes(img) && Shaped(w) && Allowed(w, p, c) && Reads(w, p, c) && At(img, w, k)
    ensures ReplyTo(img, w, p, c).answer == Answer(|Item(img, k)|, Item(img, k))
  {
  }

  predicate ByTurn(img: Bytes, names: seq<Bytes>, turns: seq<nat>)
    requires Sized(img)
  {
    |names| == |turns| && forall j :: 0 <= j < |turns| ==> names[j] == Item(img, turns[j])
  }

  /** Main result: over any interleaving each directory read returns entry k, where k counts the directory reads by
      anyone since the last directory open by anyone. */
  lemma {:induction false} ListingIsByTurn(img: Bytes, w: World, calls: seq<(int, Call)>, w': World,
                                           p: int, fd: int, k: nat)
    requires WellFormed(img) && Inv(img, w) && IsRun(img, w, calls, w') && At(img, w, k)
    ensures ByTurn(img, Listing(img, w, calls, p, fd), Turns(img, w, calls, p, fd, k))
    decreases |calls|
  {
    if calls != [] {
      var c := calls[0].1;
      CallKeepsInv(img, w, calls[0].0, c);
      CallCounts(img, w, calls[0].0, c, k);
      var w1, k1 := DoFirst(img, w, calls), Counted(img, w, calls[0].0, c, k);
      ListingIsByTurn(img, w1, calls[1..], w', p, fd, k1);
      if IsMine(calls[0], p, fd) && Reads(w, p, c) { ReadGivesItem(img, w, p, c, k); }
      TurnThen(img, IsMine(calls[0], p, fd) && Reads(w, p, c), k,
               Listing(img, w1, calls[1..], p, fd), Turns(img, w1, calls[1..], p, fd, k1));
    }
  }

  lemma TurnThen(img: Bytes, mine: bool, k: nat, names: seq<Bytes>, turns: seq<nat>)
    requires Sized(img) && ByTurn(img, names, turns)
    ensures ByTurn(img, (if mine then [Item(img, k)] else []) + names, (if mine then [k] else []) + turns)
  {
  }

  /** With distinct, non-empty names a reader's listing is the table in order, from its first entry on, exactly when
      the count at each of its reads is the number of its own reads before. */
  lemma ListingIff(img: Bytes, names: seq<Bytes>, turns: seq<nat>)
    requires Sized(img) && ByTurn(img, names, turns)
    requires [] !in Names(img)
    requires forall i, j :: 0 <= i < j < Dentries(img) ==> Names(img)[i] != Names(img)[j]
    ensures (forall j :: 0 <= j < |names| ==> names[j] == Item(img, j)) <==>
            (forall j :: 0 <= j < |turns| ==> Min(turns[j], Dentries(img)) == Min(j, Dentries(img)))
  {
    forall a: nat, b: nat ensures Item(img, a) == Item(img, b) <==> Min(a, Dentries(img)) == Min(b, Dentries(img)) {
      SameItem(img, a, b);
    }
  }

  lemma SameItem(img: Bytes, a: nat, b: nat)
    requires Sized(img) && [] !in Names(img)
    requires forall i, j :: 0 <= i < j < Dentries(img) ==> Names(img)[i] != Names(img)[j]
    ensures Item(img, a) == Item(img, b) <==> Min(a, Dentries(img)) == Min(b, Dentries(img))
  {
    var names := Names(img);
    assert a < |names| ==> names[a] in names;
    assert b < |names| ==> names[b] in names;
  }

  /** Nobody opens a directory, and nobody but process p on descriptor fd reads one. */
  predicate Undisturbed(img: Bytes, w: World, calls: seq<(int, Call)>, p: int, fd: int)
    decreases |calls|
  {
    CanCall(img, w, calls) ==>
      && !Opens(img, w, calls[0].0, calls[0].1)
      && (Reads(w, calls[0].0, calls[0].1) ==> IsMine(calls[0], p, fd))
      && Undisturbed(img, DoFirst(img, w, calls), calls[1..], p, fd)
  }

  lemma {:induction false} UndisturbedTurns(img: Bytes, w: World, calls: seq<(int, Call)>, p: int, fd: int, k: nat)
    requires Undisturbed(img, w, calls, p, fd)
    ensures forall j :: 0 <= j < |Turns(img, w, calls, p, fd, k)| ==> Turns(img, w, calls, p, fd, k)[j] == k + j
    decreases |calls|
  {
    if CanCall(img, w, calls) {
      var k' := Counted(img, w, calls[0].0, calls[0].1, k);
      UndisturbedTurns(img, DoFirst(img, w, calls), calls[1..], p, fd, k');
    }
  }

  /** Main result: after a directory open, a reader whom nobody disturbs lists the whole table in order. */
  lemma UndisturbedListing(img: Bytes, w: World, calls: seq<(int, Call)>, w': World, p: int, fd: int)
    requires WellFormed(img) && Inv(img, w) && IsRun(img, w, calls, w') && At(img, w, 0)
    requires Undisturbed(img, w, calls, p, fd)
    ensures forall j :: 0 <= j < |Listing(img, w, calls, p, fd)| ==> Listing(img, w, calls, p, fd)[j] == Item(img, j)
  {
    ListingIsByTurn(img, w, calls, w', p, fd, 0);
    UndisturbedTurns(img, w, calls, p, fd, 0);
  }

  /** What one call by another process does to the reader's next read: a directory read makes it skip an entry, a
      directory open makes it start again, which is harmless exactly where it would have started anyway. */
  lemma Disturbed(img: Bytes, w: World, q: int, c: Call, p: int, d: Call, k: nat)
    requires WellFormed(img) && Inv(img, w) && At(img, w, k) && p != q
    requires Allowed(w, q, c) && Allowed(w, p, d) && Reads(w, p, d)
    ensures var w' := Do(img, w, q, c);
            && Shaped(w') && Allowed(w', p, d) && Reads(w', p, d)
            && (Reads(w, q, c) ==> ReplyTo(img, w', p, d).answer.bytes == Item(img, k + 1))
            && (Opens(img, w, q, c) ==> ReplyTo(img, w', p, d).answer.bytes == Item(img, 0))
  {
    var w' := Do(img, w, q, c);
    CallKeepsInv(img, w, q, c);
    CallCounts(img, w, q, c, k);
    OthersUntouched(img, w, q, c, p, d.fd);
    ReadGivesItem(img, w', p, d, Counted(img, w, q, c, k));
  }
}
