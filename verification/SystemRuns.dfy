/** What whole runs of the machine give a user who types: which lines reach their reader, which are lost, and that each
    line is the fold of its own keys. */
module SystemRuns {
  import opened Words
  import opened Processes
  import opened CallStacks
  import opened FileSystem
  import opened Loader
  import opened LineEditor
  import opened Keyboard
  import opened FileCalls
  import opened System
  import Forest

  /** The event neither enters a line on terminal t, nor writes there, nor ends a read there. */
  predicate Spares(img: Bytes, y: Sys, e: Event, t: int)
    requires GoodInodes(img) && CanDo(img, y, e)
  {
    match e
    case Scan(c, _) => c != ENTER || y.procs.view.display != t
    case Write(_) => Home(y.procs) != t
    case EndRead => Home(y.procs) != t
    case _ => true
  }

  predicate Quiet(img: Bytes, y: Sys, events: seq<Event>, t: int)
    requires GoodInodes(img)
    decreases |events|
  {
    events != [] && CanDo(img, y, events[0]) ==>
      Spares(img, y, events[0], t) && Quiet(img, Advance(img, y, events[0]), events[1..], t)
  }

  lemma SparedStays(img: Bytes, y: Sys, m: Machine, e: Event, t: int)
    requires GoodInodes(img) && Good(img, y, m) && CanDo(img, y, e) && Spares(img, y, e, t) && 0 <= t < TERMINALS
    ensures var y' := Advance(img, y, e);
            |y'.prints| == |y'.ready| == TERMINALS && y'.prints[t] == y.prints[t] && y'.ready[t] == y.ready[t]
  {
  }

  /** The bytes a read has copied so far are the text's. */
  predicate Fits(r: Reading, text: Bytes)
    requires GoodReading(r) && |text| == PRINT_LIM
  {
    r.Copying? ==> r.mem[..r.done] == text[..r.done]
  }

  /** Every read under way on terminal t has copied from this text alone, as far as its bytes can tell. */
  predicate Untorn(y: Sys, t: int, text: Bytes)
    requires Shape(y.procs) && Readers(y) && |text| == PRINT_LIM
  {
    forall p :: 0 <= p < MAX_PID && y.procs.pcbs[p].terminal == t ==> Fits(y.readers[p], text)
  }

  lemma CopyFits(r: Reading, text: Bytes, n: int)
    requires r.Copying? && GoodReading(r) && |text| == PRINT_LIM && 0 <= n <= r.count - r.done
    ensures var r' := Copying(CopiedPart(r.mem, text, r.done, n), r.count, r.done + n);
            GoodReading(r') && (Fits(r', text) <==> Fits(r, text))
  {
    var r' := Copying(CopiedPart(r.mem, text, r.done, n), r.count, r.done + n);
    assert r'.mem[r.count..] == r.mem[r.count..];
    assert r'.mem[..r'.done] == r.mem[..r.done] + text[r.done..r'.done];
    assert text[..r'.done] == text[..r.done] + text[r.done..r'.done];
    assert Fits(r', text) ==> r'.mem[..r'.done][..r.done] == text[..r'.done][..r.done];
  }

  /** Reads under way are as before, but for the current process, and their terminals too. */
  lemma StepKeepsUntorn(y: Sys, step: Step, t: int, text: Bytes)
    requires Shape(y.procs) && Readers(y) && |text| == PRINT_LIM
    requires Processes.Enabled(y.procs, step) && Defined(y.procs, step) && StepsFreely(y, step)
    requires Shape(Apply(y.procs, step)) && Readers(y.(procs := Apply(y.procs, step)))
    ensures Untorn(y.(procs := Apply(y.procs, step)), t, text) <==> Untorn(y, t, text)
  {
    var y' := y.(procs := Apply(y.procs, step));
    forall p | 0 <= p < MAX_PID
      ensures (y'.procs.pcbs[p].terminal == t ==> Fits(y'.readers[p], text)) <==>
              (y.procs.pcbs[p].terminal == t ==> Fits(y.readers[p], text))
    {
      if y.readers[p].Copying? { StepKeepsReady(y.procs, step, p); }
    }
  }

  lemma ReadUntorn(img: Bytes, y: Sys, m: Machine, e: Event, t: int)
    requires GoodInodes(img) && Good(img, y, m) && CanDo(img, y, e) && 0 <= t < TERMINALS
    requires e.BeginRead? || e.CopyPart? || (e.EndRead? && Home(y.procs) != t)
    requires Shape(Advance(img, y, e).procs) && Readers(Advance(img, y, e))
    ensures Untorn(Advance(img, y, e), t, y.prints[t]) <==> Untorn(y, t, y.prints[t])
  {
    hide Refines, FileCalls.Inv, Untorn, CopiedPart;
    if e.CopyPart? {
      CopyUntorn(y, e.n, t);
    } else {
      OthersSame(y, Advance(img, y, e), t, y.prints[t]);
    }
  }

  lemma CopyUntorn(y: Sys, n: int, t: int)
    requires Typing(y) && Readers(y) && AtRead(y) && 0 <= t < TERMINALS && y.procs.view.active == Home(y.procs)
    requires 0 <= n <= y.readers[y.procs.current].count - y.readers[y.procs.current].done
    requires Readers(CopiedOn(y, n))
    ensures Untorn(CopiedOn(y, n), t, y.prints[t]) <==> Untorn(y, t, y.prints[t])
  {
    hide Untorn, CopiedPart;
    if Home(y.procs) == t { CopyFits(y.readers[y.procs.current], y.prints[t], n); }
    OthersSame(y, CopiedOn(y, n), t, y.prints[t]);
  }

  /** Between an Enter, or a write, and the end of a read nothing changes whether the read is torn. */
  lemma SparedUntorn(img: Bytes, y: Sys, m: Machine, e: Event, t: int, m': Machine)
    requires Sound(img) && Good(img, y, m) && CanDo(img, y, e) && Spares(img, y, e, t) && 0 <= t < TERMINALS
    requires Good(img, Advance(img, y, e), m')
    ensures Untorn(Advance(img, y, e), t, y.prints[t]) <==> Untorn(y, t, y.prints[t])
  {
    hide Refines, FileCalls.Inv, Untorn;
    if IsStep(e) {
      StepKeepsUntorn(y, StepOf(img, e), t, y.prints[t]);
      OthersSame(y.(procs := Apply(y.procs, StepOf(img, e))), Advance(img, y, e), t, y.prints[t]);
    } else if e.Scan? && Switches(Press(y.mods, e.c), e.c) {
      StepKeepsUntorn(y, KeyStep(img, e.c, e.junk), t, y.prints[t]);
      OthersSame(y.(procs := Apply(y.procs, KeyStep(img, e.c, e.junk))), Advance(img, y, e), t, y.prints[t]);
    } else if e.BeginRead? || e.CopyPart? || e.EndRead? {
      ReadUntorn(img, y, m, e, t);
    } else {
      OthersSame(y, Advance(img, y, e), t, y.prints[t]);
    }
  }

  /** Only the current process's read changed, and not in what matters here. */
  lemma OthersSame(y: Sys, y': Sys, t: int, text: Bytes)
    requires Shape(y.procs) && Readers(y) && Shape(y'.procs) && Readers(y') && |text| == PRINT_LIM
    requires forall p :: 0 <= p < MAX_PID ==> y'.procs.pcbs[p].terminal == y.procs.pcbs[p].terminal
    requires forall p :: 0 <= p < MAX_PID && y'.readers[p] != y.readers[p] && y.procs.pcbs[p].terminal == t ==>
               (Fits(y'.readers[p], text) <==> Fits(y.readers[p], text))
    ensures Untorn(y', t, text) <==> Untorn(y, t, text)
  {
    forall p | 0 <= p < MAX_PID
      ensures (y'.procs.pcbs[p].terminal == t ==> Fits(y'.readers[p], text)) <==>
              (y.procs.pcbs[p].terminal == t ==> Fits(y.readers[p], text))
    {
    }
  }

  lemma {:induction false} QuietStays(img: Bytes, y: Sys, m: Machine, events: seq<Event>, t: int) returns (m': Machine)
    requires Sound(img) && Good(img, y, m) && 0 <= t < TERMINALS
    requires IsHistory(img, y, events) && Quiet(img, y, events, t)
    ensures var y' := AdvanceAll(img, y, events);
            && Good(img, y', m') && y'.prints[t] == y.prints[t] && y'.ready[t] == y.ready[t]
            && (Untorn(y', t, y.prints[t]) <==> Untorn(y, t, y.prints[t]))
    decreases |events|
  {
    if events == [] { return m; }
    var m1 := EventIsGood(img, y, m, events[0]);
    SparedStays(img, y, m, events[0], t);
    SparedUntorn(img, y, m, events[0], t, m1);
    m' := QuietStays(img, Advance(img, y, events[0]), m1, events[1..], t);
  }

  /** At most one read is under way on a terminal: that of the process that has the processor, if it is there. */
  lemma OnlyReader(img: Bytes, y: Sys, m: Machine, p: int)
    requires GoodInodes(img) && Good(img, y, m) && HasProcessor(y.procs) && 0 <= p < MAX_PID
    requires y.readers[p].Copying? && y.procs.pcbs[p].terminal == Home(y.procs)
    ensures p == y.procs.current
  {
    CurrentIsReady(y.procs, m);
    Forest.OneLeaf(y.procs, m);
  }

  /** A read that ends has got the first bytes of the print buffer exactly if it is not torn. */
  lemma EndGets(img: Bytes, y: Sys, m: Machine)
    requires GoodInodes(img) && Good(img, y, m) && CanDo(img, y, EndRead)
    ensures var r, text := y.readers[y.procs.current], y.prints[Home(y.procs)];
            r.mem[..r.count] == text[..r.count] <==> Untorn(y, Home(y.procs), text)
  {
    forall p | 0 <= p < MAX_PID && y.readers[p].Copying? && y.procs.pcbs[p].terminal == Home(y.procs)
      ensures p == y.procs.current
    {
      OnlyReader(img, y, m, p);
    }
  }

  /** The line an Enter at y hands over. */
  function LineAt(y: Sys): (r: Bytes)
    requires Typing(y)
    ensures |r| <= LIMIT
  {
    Handed(y.lines[y.procs.view.display], Press(y.mods, ENTER))
  }

  /** After Enter, and whatever leaves the print buffer alone, a read there may begin. */
  lemma LineIsReady(img: Bytes, y: Sys, m: Machine, junk: Bytes, events: seq<Event>) returns (m': Machine)
    requires Sound(img) && Good(img, y, m) && CanDo(img, y, Scan(ENTER, junk))
    requires IsHistory(img, Advance(img, y, Scan(ENTER, junk)), events)
    requires Quiet(img, Advance(img, y, Scan(ENTER, junk)), events, y.procs.view.display)
    ensures var t, y' := y.procs.view.display, AdvanceAll(img, Advance(img, y, Scan(ENTER, junk)), events);
            && Good(img, y', m') && y'.ready[t] && y'.prints[t] == Pad(LineAt(y), PRINT_LIM)
            && (Untorn(y', t, y'.prints[t]) <==> Untorn(y, t, y'.prints[t]))
  {
    var m1 := EventIsGood(img, y, m, Scan(ENTER, junk));
    m' := QuietStays(img, Advance(img, y, Scan(ENTER, junk)), m1, events, y.procs.view.display);
  }

  /** When the read ends, this text is still in the print buffer, and not marked ready. */
  predicate LeavesBehind(img: Bytes, y: Sys, t: int, text: Bytes)
    requires GoodInodes(img) && CanDo(img, y, EndRead) && 0 <= t < TERMINALS
  {
    var y' := Advance(img, y, EndRead);
    y'.prints[t] == text && !y'.ready[t]
  }

  lemma EndLeaves(img: Bytes, y: Sys)
    requires GoodInodes(img) && CanDo(img, y, EndRead)
    ensures LeavesBehind(img, y, y.procs.view.active, y.prints[y.procs.view.active])
  {
  }

  /** Main result: the read that ends first on the terminal after an Enter there gets the entered line, as far as it
      asked for, if and only if what a read there had copied before the Enter agrees with the line. Its end clears the
      mark in any case: otherwise the line is lost. */
  lemma LineLostIff(img: Bytes, y: Sys, m: Machine, junk: Bytes, events: seq<Event>)
    requires Sound(img) && Good(img, y, m) && CanDo(img, y, Scan(ENTER, junk))
    requires IsHistory(img, Advance(img, y, Scan(ENTER, junk)), events)
    requires Quiet(img, Advance(img, y, Scan(ENTER, junk)), events, y.procs.view.display)
    requires var y' := AdvanceAll(img, Advance(img, y, Scan(ENTER, junk)), events);
             CanDo(img, y', EndRead) && Home(y'.procs) == y.procs.view.display
    ensures var y' := AdvanceAll(img, Advance(img, y, Scan(ENTER, junk)), events);
            var t, text, r := y.procs.view.display, Pad(LineAt(y), PRINT_LIM), y'.readers[y'.procs.current];
            && (r.mem[..r.count] == text[..r.count] <==> Untorn(y, t, text))
            && LeavesBehind(img, y', t, text)
  {
    var m' := LineIsReady(img, y, m, junk, events);
    EndGets(img, AdvanceAll(img, Advance(img, y, Scan(ENTER, junk)), events), m');
  }

  /** No read on terminal t has copied anything yet. */
  predicate NoCopyBegun(y: Sys, t: int)
    requires Shape(y.procs) && Readers(y)
  {
    forall p :: 0 <= p < MAX_PID && y.procs.pcbs[p].terminal == t && y.readers[p].Copying? ==> y.readers[p].done == 0
  }

  /** Main result: after an Enter on terminal t that does not fall into a read's copying there, whatever runs, is
      typed, switched, written or read elsewhere, the next read to end on t gets exactly the line and its length, if
      its count exceeds it and no NUL was typed; and that length exactly under the condition of
      `ReadReturnsLengthIff`. */
  lemma LineArrives(img: Bytes, y: Sys, m: Machine, junk: Bytes, events: seq<Event>)
    requires Sound(img) && Good(img, y, m) && CanDo(img, y, Scan(ENTER, junk))
    requires NoCopyBegun(y, y.procs.view.display)
    requires IsHistory(img, Advance(img, y, Scan(ENTER, junk)), events)
    requires Quiet(img, Advance(img, y, Scan(ENTER, junk)), events, y.procs.view.display)
    requires var y' := AdvanceAll(img, Advance(img, y, Scan(ENTER, junk)), events);
             CanDo(img, y', EndRead) && Home(y'.procs) == y.procs.view.display
    ensures var y' := AdvanceAll(img, Advance(img, y, Scan(ENTER, junk)), events);
            GotLine(y'.readers[y'.procs.current], LineAt(y), AnswerOf(img, y', EndRead))
  {
    var y' := AdvanceAll(img, Advance(img, y, Scan(ENTER, junk)), events);
    LineLostIff(img, y, m, junk, events);
    LineIs(y'.readers[y'.procs.current], LineAt(y));
  }

  /** The answer to a read of this line: the line and its length, if the count exceeds it and it holds no NUL; and the
      length exactly if it holds none in the part copied and the caller's old bytes do not run on. */
  predicate GotLine(r: Reading, line: Bytes, a: Answer)
    requires r.Copying? && GoodReading(r)
  {
    var part := if r.count > |line| then line else line[..r.count];
    && (a.code == |line| <==> NUL !in part && (r.count > |line| || r.count + StrlenOf(r.mem[r.count..]) == |line|))
    && (NUL !in line && r.count > |line| ==> a == Answer(|line|, line))
  }

  lemma LineIs(r: Reading, line: Bytes)
    requires r.Copying? && GoodReading(r) && |line| <= LIMIT
    requires r.mem[..r.count] == Pad(line, PRINT_LIM)[..r.count]
    ensures GotLine(r, line, ReadAnswer(r))
  {
    assert r.mem == Pad(line, PRINT_LIM)[..r.count] + r.mem[r.count..];
    ReadReturnsLengthIff(line, r.count, r.mem[r.count..]);
  }

  /** What a terminal's reader would get: the last text put there, by Enter or by a write, and whether it is ready. */
  datatype Mail = Mail(text: Bytes, ready: bool)

  function Delivered(img: Bytes, y: Sys, e: Event, t: int, mail: Mail): Mail
    requires GoodInodes(img) && CanDo(img, y, e)
  {
    match e
    case Scan(c, _) => if c == ENTER && y.procs.view.display == t then Mail(LineAt(y), true) else mail
    case Write(buf) => if Home(y.procs) == t then mail.(text := buf) else mail
    case EndRead => if Home(y.procs) == t then mail.(ready := false) else mail
    case _ => mail
  }

  function MailAfter(img: Bytes, y: Sys, events: seq<Event>, t: int, mail: Mail): Mail
    requires GoodInodes(img)
    decreases |events|
  {
    if events == [] || !CanDo(img, y, events[0]) then mail
    else MailAfter(img, Advance(img, y, events[0]), events[1..], t, Delivered(img, y, events[0], t, mail))
  }

  /** Terminal t's print buffer starts with this text as a C string, and its ready mark is as said. */
  predicate Holds(y: Sys, t: int, mail: Mail)
    requires Mailboxes(y) && 0 <= t < TERMINALS
  {
    && |mail.text| < PRINT_LIM && y.prints[t][..|mail.text|] == mail.text && y.prints[t][|mail.text|] == NUL
    && y.ready[t] == mail.ready
  }

  lemma DeliveredHolds(img: Bytes, y: Sys, m: Machine, e: Event, t: int, mail: Mail)
    requires GoodInodes(img) && Good(img, y, m) && CanDo(img, y, e) && 0 <= t < TERMINALS && Holds(y, t, mail)
    requires Mailboxes(Advance(img, y, e))
    ensures Holds(Advance(img, y, e), t, Delivered(img, y, e, t, mail))
  {
    if Spares(img, y, e, t) {
      SparedStays(img, y, m, e, t);
    } else if e.Write? {
      assert Advance(img, y, e).prints[t] == Overwritten(y.prints[t], e.buf);
    }
  }

  /** Main result: a terminal's print buffer holds what was put there last, a line or a program's output, whoever
      ran in between; it is marked ready exactly if an Enter came after the last end of a read. */
  lemma {:induction false} MailIsLatest(img: Bytes, y: Sys, m: Machine, events: seq<Event>, t: int, mail: Mail)
    requires Sound(img) && Good(img, y, m) && IsHistory(img, y, events) && 0 <= t < TERMINALS && Holds(y, t, mail)
    ensures Mailboxes(AdvanceAll(img, y, events))
    ensures Holds(AdvanceAll(img, y, events), t, MailAfter(img, y, events, t, mail))
    decreases |events|
  {
    if events != [] {
      var m1 := EventIsGood(img, y, m, events[0]);
      DeliveredHolds(img, y, m, events[0], t, mail);
      MailIsLatest(img, Advance(img, y, events[0]), m1, events[1..], t, Delivered(img, y, events[0], t, mail));
    }
  }

  /** A read during which nobody enters a line on its terminal gets the text that was there when it began. After a
      write that is the program's own output, not the line. */
  lemma ReadGetsLatest(img: Bytes, y: Sys, m: Machine, count: int, mem: Bytes, events: seq<Event>, mail: Mail)
    requires Sound(img) && Good(img, y, m) && CanDo(img, y, BeginRead(count, mem)) && Holds(y, Home(y.procs), mail)
    requires IsHistory(img, Advance(img, y, BeginRead(count, mem)), events)
    requires Quiet(img, Advance(img, y, BeginRead(count, mem)), events, Home(y.procs))
    requires var y' := AdvanceAll(img, Advance(img, y, BeginRead(count, mem)), events);
             CanDo(img, y', EndRead) && Home(y'.procs) == Home(y.procs)
    ensures var y' := AdvanceAll(img, Advance(img, y, BeginRead(count, mem)), events);
            var r := y'.readers[y'.procs.current];
            && r.mem[..r.count] == y.prints[Home(y.procs)][..r.count]
            && (NUL !in mail.text && r.count > |mail.text| ==>
                  AnswerOf(img, y', EndRead) == Answer(|mail.text|, mail.text))
  {
    var y1, t := Advance(img, y, BeginRead(count, mem)), Home(y.procs);
    BeginIsUntorn(img, y, m, count, mem);
    var m1 := EventIsGood(img, y, m, BeginRead(count, mem));
    var m2 := QuietStays(img, y1, m1, events, t);
    var y' := AdvanceAll(img, y1, events);
    EndGets(img, y', m2);
    TextIs(y'.readers[y'.procs.current], y.prints[t], mail.text);
  }

  lemma TextIs(r: Reading, buffer: Bytes, text: Bytes)
    requires r.Copying? && GoodReading(r) && |buffer| == PRINT_LIM && r.mem[..r.count] == buffer[..r.count]
    requires |text| < PRINT_LIM && buffer[..|text|] == text && buffer[|text|] == NUL
    ensures NUL !in text && r.count > |text| ==> ReadAnswer(r) == Answer(|text|, text)
  {
    if NUL !in text && r.count > |text| {
      assert forall k :: 0 <= k < r.count ==> r.mem[k] == r.mem[..r.count][k] && buffer[k] == buffer[..r.count][k];
      assert forall k :: 0 <= k < |text| ==> r.mem[k] == text[k] && text[k] in text;
      StrlenIs(r.mem, |text|);
      assert r.mem[..|text|] == text;
    }
  }

  lemma BeginIsUntorn(img: Bytes, y: Sys, m: Machine, count: int, mem: Bytes)
    requires Sound(img) && Good(img, y, m) && CanDo(img, y, BeginRead(count, mem))
    ensures var y', t := Advance(img, y, BeginRead(count, mem)), Home(y.procs);
            Shape(y'.procs) && Readers(y') && Untorn(y', t, y.prints[t])
  {
    BeginIsGood(img, y, m, BeginRead(count, mem));
    forall p | 0 <= p < MAX_PID && y.readers[p].Copying? && y.procs.pcbs[p].terminal == Home(y.procs)
      ensures p == y.procs.current
    {
      OnlyReader(img, y, m, p);
    }
  }

  /** Two parts of a copy between which the print buffer changed. */
  lemma TornMemory(mem: Bytes, was: Bytes, now: Bytes, k: int, count: int)
    requires |was| == |now| == PRINT_LIM && 0 <= k <= count <= PRINT_LIM && count <= |mem|
    ensures CopiedPart(CopiedPart(mem, was, 0, k), now, k, count - k) == was[..k] + now[k..count] + mem[count..]
  {
  }

  lemma Then(img: Bytes, y: Sys, e: Event, rest: seq<Event>)
    requires GoodInodes(img) && CanDo(img, y, e) && IsHistory(img, Advance(img, y, e), rest)
    ensures IsHistory(img, y, [e] + rest)
    ensures AdvanceAll(img, y, [e] + rest) == AdvanceAll(img, Advance(img, y, e), rest)
  {
    assert ([e] + rest)[1..] == rest;
  }

  /** A read that has copied k bytes when Enter comes, and then copies the rest. */
  function LosingRun(junk: Bytes, count: int, mem: Bytes, k: int): seq<Event> {
    [BeginRead(count, mem)] + ([CopyPart(k)] + ([Scan(ENTER, junk)] + ([CopyPart(count - k)] + [])))
  }

  lemma LosingStart(img: Bytes, y: Sys, m: Machine, count: int, mem: Bytes, k: int) returns (y2: Sys, m2: Machine)
    requires Sound(img) && Good(img, y, m) && CanDo(img, y, BeginRead(count, mem)) && 0 <= k <= count
    ensures var y1 := Advance(img, y, BeginRead(count, mem));
            CanDo(img, y1, CopyPart(k)) && y2 == Advance(img, y1, CopyPart(k)) && Good(img, y2, m2)
    ensures var r := Copying(CopiedPart(mem, y.prints[Home(y.procs)], 0, k), count, k);
            y2 == y.(readers := y.readers[y.procs.current := r])
  {
    hide Refines, FileCalls.Inv, CopiedPart;
    var m1 := EventIsGood(img, y, m, BeginRead(count, mem));
    var y1 := Advance(img, y, BeginRead(count, mem));
    m2 := EventIsGood(img, y1, m1, CopyPart(k));
    y2 := Advance(img, y1, CopyPart(k));
    assert y1.readers[y.procs.current := y2.readers[y.procs.current]] ==
           y.readers[y.procs.current := y2.readers[y.procs.current]];
  }

  lemma LosingEnd(img: Bytes, y: Sys, m: Machine, junk: Bytes) returns (y': Sys)
    requires Sound(img) && Good(img, y, m) && AtRead(y) && |junk| >= HEADER && Home(y.procs) == y.procs.view.display
    ensures var r := y.readers[y.procs.current];
            var n := r.count - r.done;
            && CanDo(img, y, Scan(ENTER, junk)) && CanDo(img, Advance(img, y, Scan(ENTER, junk)), CopyPart(n))
            && y' == Advance(img, Advance(img, y, Scan(ENTER, junk)), CopyPart(n))
            && CanDo(img, y', EndRead) && y'.procs == y.procs
            && LeavesBehind(img, y', y.procs.view.display, Pad(LineAt(y), PRINT_LIM))
            && y'.readers[y.procs.current].mem == CopiedPart(r.mem, Pad(LineAt(y), PRINT_LIM), r.done, n)
  {
    hide Refines, FileCalls.Inv, CopiedPart, LeavesBehind;
    var r := y.readers[y.procs.current];
    var m1 := EventIsGood(img, y, m, Scan(ENTER, junk));
    var y1 := Advance(img, y, Scan(ENTER, junk));
    var m2 := EventIsGood(img, y1, m1, CopyPart(r.count - r.done));
    y' := Advance(img, y1, CopyPart(r.count - r.done));
    EndLeaves(img, y');
  }

  /** A run that loses a line: its read ends with k bytes of the old text followed by the line's, all of them old if
      the copy was complete when Enter came, and the line stays behind without its mark. */
  lemma LineCanBeLost(img: Bytes, y: Sys, m: Machine, junk: Bytes, count: int, mem: Bytes, k: int)
    requires Sound(img) && Good(img, y, m) && CanDo(img, y, BeginRead(count, mem)) && |junk| >= HEADER
    requires Home(y.procs) == y.procs.view.display && 0 <= k <= count
    ensures IsHistory(img, y, LosingRun(junk, count, mem, k))
    ensures var y' := AdvanceAll(img, y, LosingRun(junk, count, mem, k));
            && CanDo(img, y', EndRead) && y'.procs == y.procs
            && var t, line := y.procs.view.display, Pad(LineAt(y), PRINT_LIM);
               && y'.readers[y.procs.current].mem == y.prints[t][..k] + line[k..count] + mem[count..]
               && LeavesBehind(img, y', t, line)
  {
    hide Refines, FileCalls.Inv, CopiedPart, Advance;
    var y2, m2 := LosingStart(img, y, m, count, mem, k);
    var y4 := LosingEnd(img, y2, m2, junk);
    TornMemory(mem, y.prints[Home(y.procs)], Pad(LineAt(y), PRINT_LIM), k, count);
    LosingIsHistory(img, y, junk, count, mem, k, y4);
  }

  lemma LosingIsHistory(img: Bytes, y: Sys, junk: Bytes, count: int, mem: Bytes, k: int, y4: Sys)
    requires GoodInodes(img) && CanDo(img, y, BeginRead(count, mem))
    requires var y1 := Advance(img, y, BeginRead(count, mem));
             && CanDo(img, y1, CopyPart(k))
             && var y2 := Advance(img, y1, CopyPart(k));
                && CanDo(img, y2, Scan(ENTER, junk))
                && var y3 := Advance(img, y2, Scan(ENTER, junk));
                   CanDo(img, y3, CopyPart(count - k)) && y4 == Advance(img, y3, CopyPart(count - k))
    ensures IsHistory(img, y, LosingRun(junk, count, mem, k))
    ensures AdvanceAll(img, y, LosingRun(junk, count, mem, k)) == y4
  {
    hide CanDo, Advance;
    var y1 := Advance(img, y, BeginRead(count, mem));
    var y2 := Advance(img, y1, CopyPart(k));
    var y3 := Advance(img, y2, Scan(ENTER, junk));
    Then(img, y3, CopyPart(count - k), []);
    Then(img, y2, Scan(ENTER, junk), [CopyPart(count - k)] + []);
    Then(img, y1, CopyPart(k), [Scan(ENTER, junk)] + ([CopyPart(count - k)] + []));
    Then(img, y, BeginRead(count, mem), [CopyPart(k)] + ([Scan(ENTER, junk)] + ([CopyPart(count - k)] + [])));
  }

  /** The strokes an event makes on terminal t's line. */
  function StrokesAt(y: Sys, e: Event, t: int): seq<Stroke>
    requires |y.mods.pressed| == KEYS && (e.Scan? ==> 0 <= e.c < 256)
  {
    if e.Scan? && y.procs.view.display == t && !Switches(Press(y.mods, e.c), e.c) then
      StrokesOf(Press(y.mods, e.c), e.c)
    else []
  }

  function StrokesIn(img: Bytes, y: Sys, events: seq<Event>, t: int): seq<Stroke>
    requires GoodInodes(img)
    decreases |events|
  {
    if events == [] || !CanDo(img, y, events[0]) then []
    else StrokesAt(y, events[0], t) + StrokesIn(img, Advance(img, y, events[0]), events[1..], t)
  }

  lemma EventEdits(img: Bytes, y: Sys, e: Event, t: int)
    requires GoodInodes(img) && CanDo(img, y, e) && 0 <= t < TERMINALS
    ensures |Advance(img, y, e).lines| == TERMINALS
    ensures Advance(img, y, e).lines[t] == EditAll(y.lines[t], StrokesAt(y, e, t))
  {
  }

  /** Main result: whatever programs do, each terminal's line is the fold of the strokes typed while it was shown. */
  lemma {:induction false} LineIsFold(img: Bytes, y: Sys, m: Machine, events: seq<Event>, t: int)
    requires Sound(img) && Good(img, y, m) && IsHistory(img, y, events) && 0 <= t < TERMINALS
    ensures |AdvanceAll(img, y, events).lines| == TERMINALS
    ensures AdvanceAll(img, y, events).lines[t] == EditAll(y.lines[t], StrokesIn(img, y, events, t))
    decreases |events|
  {
    if events != [] {
      var m1 := EventIsGood(img, y, m, events[0]);
      EventEdits(img, y, events[0], t);
      LineIsFold(img, Advance(img, y, events[0]), m1, events[1..], t);
      EditAllOn(y.lines[t], StrokesAt(y, events[0], t), StrokesIn(img, Advance(img, y, events[0]), events[1..], t));
    }
  }
}
