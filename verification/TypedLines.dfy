/** What keys type, in characters: the layout, the modifiers, and which characters an Enter hands over. */
module TypedLines {
  import opened Words
  import opened Processes
  import opened CallStacks
  import opened FileSystem
  import opened Loader
  import opened Execution
  import opened LineEditor
  import opened Keyboard
  import opened System
  import opened SystemRuns
  import FileCalls
  import Forest

  function Code(c: char): int { c as int }

  /** The unshifted layout, row by row; every other key types nothing. */
  lemma Layout(c: int)
    ensures 2 <= c <= 13 ==> Plain(c) == Code("1234567890-="[c - 2])
    ensures 16 <= c <= 27 ==> Plain(c) == Code("qwertyuiop[]"[c - 16])
    ensures 30 <= c <= 40 ==> Plain(c) == Code("asdfghjkl;'"[c - 30])
    ensures 43 <= c <= 53 ==> Plain(c) == Code("\\zxcvbnm,./"[c - 43])
    ensures 71 <= c <= 82 ==> Plain(c) == Code("789-456+1230"[c - 71])
    ensures Plain(15) == Code('\t') && Plain(28) == Code('\n') && Plain(57) == Code(' ')
    ensures c < 2 || c in {14, 29, 41, 42} || 54 <= c <= 56 || 58 <= c <= 70 || c > 82 ==> Plain(c) == NUL
  {
  }

  predicate Shifted(m: Mods)
    requires |m.pressed| == KEYS
  {
    m.pressed[LEFT_SHIFT] || m.pressed[RIGHT_SHIFT]
  }

  /** A letter is upper case exactly when caps lock and Shift differ; without Shift every other key types its plain
      character, and Shift gives the sign above it. */
  lemma CaseIs(m: Mods, c: int)
    requires |m.pressed| == KEYS
    ensures Code('a') <= Plain(c) <= Code('z') ==>
              Convert(m, c) == if m.caps != Shifted(m) then Plain(c) - 32 else Plain(c)
    ensures !(Code('a') <= Plain(c) <= Code('z')) && !Shifted(m) ==> Convert(m, c) == Plain(c)
    ensures Shifted(m) && 2 <= c <= 13 ==> Convert(m, c) == Code("!@#$%^&*()_+"[c - 2])
    ensures Shifted(m) && 26 <= c <= 27 ==> Convert(m, c) == Code("{}"[c - 26])
    ensures Shifted(m) && 39 <= c <= 40 ==> Convert(m, c) == Code(":\""[c - 39])
    ensures Shifted(m) && c == 43 ==> Convert(m, c) == Code('|')
    ensures Shifted(m) && 51 <= c <= 53 ==> Convert(m, c) == Code("<>?"[c - 51])
  {
  }

  /** A key that is pressed and released, other than caps lock, leaves every key as it was but itself up; two presses of
      caps lock leave the letters as they were. */
  lemma PressAndRelease(m: Mods, c: int)
    requires |m.pressed| == KEYS && 0 <= c < KEYS
    ensures var m' := Press(Press(m, c), c + KEYS);
            && |m'.pressed| == KEYS && !m'.pressed[c] && Press(m, c).pressed[c]
            && (forall k :: 0 <= k < KEYS && k != c ==> m'.pressed[k] == m.pressed[k])
            && (m'.caps == m.caps <==> c != CAPS_LOCK)
            && Press(m', CAPS_LOCK).caps != m'.caps
            && Press(Press(m', CAPS_LOCK), CAPS_LOCK).caps == m'.caps
  {
  }

  /** No modifier is down and caps lock is off. */
  predicate Bare(m: Mods) {
    |m.pressed| == KEYS && !Shifted(m) && !m.pressed[LEFT_ALT] && !m.pressed[LEFT_CONTROL] && !m.caps
  }

  /** A key with a character of its own, other than Enter. */
  predicate IsTyping(c: int) { 0 <= c < KEYS && Plain(c) != NUL && c != ENTER }

  lemma BareTypes(m: Mods, c: int)
    requires Bare(m) && IsTyping(c)
    ensures Plain(c) != 10 && Plain(c) != 13 && !Switches(Press(m, c), c)
    ensures FirstStroke(Press(m, c), c) == Some(Type(Plain(c))) && LastStroke(c) == None
  {
    Layout(c);
    CaseIs(Press(m, c), c);
  }

  /** Only the displayed line, the modifiers and the mailbox may differ. */
  predicate OnlyTyped(y: Sys, y': Sys, line: Bytes)
    requires Typing(y)
  {
    y' == y.(mods := y'.mods, lines := y.lines[y.procs.view.display := line]) && Bare(y'.mods)
  }

  /** A bare key appends its character. */
  lemma KeyTypes(img: Bytes, y: Sys, c: int, junk: Bytes)
    requires GoodInodes(img) && CanDo(img, y, Scan(c, junk)) && Bare(y.mods) && IsTyping(c)
    requires |y.lines[y.procs.view.display]| < 128
    ensures OnlyTyped(y, Advance(img, y, Scan(c, junk)), y.lines[y.procs.view.display] + [Plain(c)])
  {
    var line, m := y.lines[y.procs.view.display], Press(y.mods, c);
    Layout(c);
    CaseIs(m, c);
    assert FirstStroke(m, c) == Some(Type(Plain(c))) && LastStroke(c) == None;
    assert StrokesOf(m, c) == [Type(Plain(c))];
    assert EditAll(line, [Type(Plain(c))]) == EditAll(Edit(line, Type(Plain(c))), []);
  }

  /** Its release changes nothing but the modifiers. */
  lemma ReleaseTypes(img: Bytes, y: Sys, c: int, junk: Bytes)
    requires GoodInodes(img) && CanDo(img, y, Scan(c + KEYS, junk)) && Bare(y.mods) && IsTyping(c)
    ensures OnlyTyped(y, Advance(img, y, Scan(c + KEYS, junk)), y.lines[y.procs.view.display])
  {
    var line, m := y.lines[y.procs.view.display], Press(y.mods, c + KEYS);
    assert StrokesOf(m, c + KEYS) == [];
    assert EditAll(line, []) == line;
    assert y.lines[y.procs.view.display := line] == y.lines;
  }

  /** Enter without Shift or Alt on a line that is not full hands over the line and a newline, and the next line is
      empty. */
  lemma EnterHands(img: Bytes, y: Sys, junk: Bytes)
    requires GoodInodes(img) && CanDo(img, y, Scan(ENTER, junk)) && |y.lines[y.procs.view.display]| < 128
    requires !Shifted(y.mods) && !y.mods.pressed[LEFT_ALT]
    ensures var t, y' := y.procs.view.display, Advance(img, y, Scan(ENTER, junk));
            && y'.procs == y.procs && |y'.lines| == |y'.prints| == |y'.ready| == TERMINALS
            && LineAt(y) == y.lines[t] + [NEWLINE]
            && y'.prints[t] == Pad(y.lines[t] + [NEWLINE], PRINT_LIM) && y'.ready[t]
            && y'.lines[t] == []
            && (Bare(y.mods) ==> Bare(y'.mods))
  {
    var t, m := y.procs.view.display, Press(y.mods, ENTER);
    HandedIs(y.lines[t], m);
    EnterEmpties(y.lines[t], m);
  }

  /** Whatever the modifiers, the line after an Enter is empty. */
  lemma EnterEmpties(line: Bytes, m: Mods)
    requires |line| <= LIMIT && |m.pressed| == KEYS
    ensures EditAll(line, StrokesOf(m, ENTER)) == []
  {
    var k := AsSeq(FirstStroke(m, ENTER));
    EditAllOn(line, k, [Submit]);
    assert EditAll(EditAll(line, k), [Submit]) == EditAll(Edit(EditAll(line, k), Submit), []);
  }

  /** Ctrl-L empties the displayed line, and backspace drops its last character. */
  lemma EditingKeys(img: Bytes, y: Sys, c: int, junk: Bytes)
    requires GoodInodes(img) && CanDo(img, y, Scan(c, junk)) && ((c == 38 && y.mods.pressed[29]) || c == 14)
    ensures var t, y' := y.procs.view.display, Advance(img, y, Scan(c, junk));
            && |y'.lines| == TERMINALS
            && y'.lines[t] == if c == 38 || y.lines[t] == [] then [] else y.lines[t][..|y.lines[t]| - 1]
  {
    hide FileCalls.Inv, Readers, EditAll, StrokesOf;
    EditKeys(y.lines[y.procs.view.display], Press(y.mods, c), c);
  }

  lemma EditKeys(line: Bytes, m: Mods, c: int)
    requires |line| <= LIMIT && |m.pressed| == KEYS
    ensures c == 38 && m.pressed[29] ==> EditAll(line, StrokesOf(m, c)) == []
    ensures c == 14 ==> EditAll(line, StrokesOf(m, c)) == if line == [] then [] else line[..|line| - 1]
  {
    hide Plain, Convert;
    Layout(c);
    if c == 38 && m.pressed[29] {
      assert StrokesOf(m, c) == [Wipe];
      assert EditAll(line, [Wipe]) == EditAll(Edit(line, Wipe), []);
    } else if c == 14 {
      assert StrokesOf(m, c) == [Stroke.Backspace];
      assert EditAll(line, [Stroke.Backspace]) == EditAll(Edit(line, Stroke.Backspace), []);
    }
  }

  /** Alt with F1, F2 and F3 displays terminal 0, 1 and 2 and leaves every line and mailbox alone. */
  lemma FunctionKeys(img: Bytes, y: Sys, c: int, junk: Bytes)
    requires GoodInodes(img) && CanDo(img, y, Scan(c, junk)) && 59 <= c <= 61 && y.mods.pressed[56]
    ensures var y' := Advance(img, y, Scan(c, junk));
            && y'.procs.view.display == c - 59
            && y'.lines == y.lines && y'.prints == y.prints && y'.ready == y.ready
  {
    hide FileCalls.Inv, Readers, SpawnShell, ProbeOf, StrokesOf;
    if c > 59 { SpawnShows(y.procs, c - 59, ProbeOf(img, SHELL, junk)); }
  }

  /** Pressing and releasing keys one after the other, and the characters they stand for. */
  function Presses(keys: seq<int>, junk: Bytes): seq<Event> {
    if keys == [] then [] else [Scan(keys[0], junk)] + ([Scan(keys[0] + KEYS, junk)] + Presses(keys[1..], junk))
  }

  function Characters(keys: seq<int>): (r: Bytes)
    ensures |r| == |keys|
  {
    seq(|keys|, i requires 0 <= i < |keys| => Plain(keys[i]))
  }

  /** One key pressed and released. */
  lemma KeyStroke(img: Bytes, y: Sys, m: Machine, c: int, junk: Bytes) returns (y2: Sys, m2: Machine)
    requires Sound(img) && Good(img, y, m) && |junk| >= HEADER && Bare(y.mods) && IsTyping(c)
    requires |y.lines[y.procs.view.display]| < 128
    ensures CanDo(img, y, Scan(c, junk)) && CanDo(img, Advance(img, y, Scan(c, junk)), Scan(c + KEYS, junk))
    ensures y2 == Advance(img, Advance(img, y, Scan(c, junk)), Scan(c + KEYS, junk)) && Good(img, y2, m2)
    ensures OnlyTyped(y, y2, y.lines[y.procs.view.display] + [Plain(c)])
  {
    hide Good, DoKey;
    var m1 := EventIsGood(img, y, m, Scan(c, junk));
    var y1 := Advance(img, y, Scan(c, junk));
    KeyTypes(img, y, c, junk);
    m2 := EventIsGood(img, y1, m1, Scan(c + KEYS, junk));
    ReleaseTypes(img, y1, c, junk);
    y2 := Advance(img, y1, Scan(c + KEYS, junk));
  }

  /** Typing a word appends its characters to the displayed line and does nothing else. */
  lemma {:induction false} WordTypes(img: Bytes, y: Sys, m: Machine, keys: seq<int>, junk: Bytes) returns (m': Machine)
    requires Sound(img) && Good(img, y, m) && |junk| >= HEADER && Bare(y.mods)
    requires forall i :: 0 <= i < |keys| ==> IsTyping(keys[i])
    requires |y.lines[y.procs.view.display]| + |keys| <= 128
    ensures IsHistory(img, y, Presses(keys, junk)) && Good(img, AdvanceAll(img, y, Presses(keys, junk)), m')
    ensures OnlyTyped(y, AdvanceAll(img, y, Presses(keys, junk)), y.lines[y.procs.view.display] + Characters(keys))
    decreases |keys|
  {
    hide Refines, FileCalls.Inv, Advance, IsTyping, Forest.Agrees, Readers;
    var t := y.procs.view.display;
    if keys == [] {
      assert y.lines[t] + Characters(keys) == y.lines[t];
      assert y.lines[t := y.lines[t]] == y.lines;
      return m;
    }
    var y2, m2 := KeyStroke(img, y, m, keys[0], junk);
    m' := WordTypes(img, y2, m2, keys[1..], junk);
    Then(img, Advance(img, y, Scan(keys[0], junk)), Scan(keys[0] + KEYS, junk), Presses(keys[1..], junk));
    Then(img, y, Scan(keys[0], junk), [Scan(keys[0] + KEYS, junk)] + Presses(keys[1..], junk));
    assert Characters(keys) == [Plain(keys[0])] + Characters(keys[1..]);
    assert y2.lines[t] + Characters(keys[1..]) == y.lines[t] + Characters(keys);
  }

  /** The keys of a word, then Enter. */
  function TypeLine(keys: seq<int>, junk: Bytes): seq<Event> { Presses(keys, junk) + [Scan(ENTER, junk)] }

  /** The displayed terminal's mailbox holds exactly these characters, ready, and its line is empty. */
  predicate HandedOver(y: Sys, chars: Bytes)
    requires Typing(y) && |chars| < PRINT_LIM
  {
    var t := y.procs.view.display;
    y.prints[t] == Pad(chars, PRINT_LIM) && y.ready[t] && y.lines[t] == []
  }

  /** Main result: a word typed on an empty line, and Enter, hand over exactly its characters and a newline. */
  lemma LineIsTyped(img: Bytes, y: Sys, m: Machine, keys: seq<int>, junk: Bytes) returns (m': Machine)
    requires Sound(img) && Good(img, y, m) && |junk| >= HEADER && Bare(y.mods)
    requires y.lines[y.procs.view.display] == [] && |keys| < 128
    requires forall i :: 0 <= i < |keys| ==> IsTyping(keys[i])
    ensures IsHistory(img, y, TypeLine(keys, junk))
    ensures var y' := AdvanceAll(img, y, TypeLine(keys, junk));
            && Good(img, y', m') && y'.procs == y.procs && Bare(y'.mods)
            && HandedOver(y', Characters(keys) + [NEWLINE])
  {
    hide Refines, FileCalls.Inv, Advance, IsTyping, Forest.Agrees, Readers;
    var m1 := WordTypes(img, y, m, keys, junk);
    var y1 := AdvanceAll(img, y, Presses(keys, junk));
    assert [] + Characters(keys) == Characters(keys);
    m' := EventIsGood(img, y1, m1, Scan(ENTER, junk));
    EnterHands(img, y1, junk);
    AndThen(img, y, m, Presses(keys, junk), Scan(ENTER, junk));
  }

  /** One more event at the end of a history. */
  lemma {:induction false} AndThen(img: Bytes, y: Sys, m: Machine, events: seq<Event>, e: Event)
    requires Sound(img) && Good(img, y, m) && IsHistory(img, y, events)
    requires CanDo(img, AdvanceAll(img, y, events), e)
    ensures IsHistory(img, y, events + [e])
    ensures AdvanceAll(img, y, events + [e]) == Advance(img, AdvanceAll(img, y, events), e)
    decreases |events|
  {
    hide Good, Advance;
    if events == [] {
      assert events + [e] == [e];
    } else {
      assert (events + [e])[1..] == events[1..] + [e];
      var m1 := EventIsGood(img, y, m, events[0]);
      AndThen(img, Advance(img, y, events[0]), m1, events[1..], e);
    }
  }

  /** Main result: two lines typed one after the other each hand over their own characters and no others. */
  lemma TwoLines(img: Bytes, y: Sys, m: Machine, first: seq<int>, second: seq<int>, junk: Bytes)
    requires Sound(img) && Good(img, y, m) && |junk| >= HEADER && Bare(y.mods)
    requires y.lines[y.procs.view.display] == [] && |first| < 128 && |second| < 128
    requires forall i :: 0 <= i < |first| ==> IsTyping(first[i])
    requires forall i :: 0 <= i < |second| ==> IsTyping(second[i])
    ensures var y1 := AdvanceAll(img, y, TypeLine(first, junk));
            var y2 := AdvanceAll(img, y1, TypeLine(second, junk));
            && IsHistory(img, y, TypeLine(first, junk)) && IsHistory(img, y1, TypeLine(second, junk))
            && Typing(y1) && HandedOver(y1, Characters(first) + [NEWLINE])
            && Typing(y2) && HandedOver(y2, Characters(second) + [NEWLINE])
  {
    hide Refines, FileCalls.Inv, Advance, IsTyping, Forest.Agrees, Readers;
    var m1 := LineIsTyped(img, y, m, first, junk);
    var m2 := LineIsTyped(img, AdvanceAll(img, y, TypeLine(first, junk)), m1, second, junk);
  }

  function Types(chars: Bytes): (r: seq<Stroke>)
    ensures |r| == |chars|
  {
    seq(|chars|, i requires 0 <= i < |chars| => Type(chars[i]))
  }

  lemma {:induction false} TypedChars(line: Bytes, chars: Bytes)
    requires |line| + |chars| <= 128
    ensures EditAll(line, Types(chars)) == line + chars
    decreases |chars|
  {
    if chars != [] {
      TypedChars(line + [chars[0]], chars[1..]);
      assert Types(chars)[1..] == Types(chars[1..]);
      assert line + [chars[0]] + chars[1..] == line + chars;
    } else {
      assert line + chars == line;
    }
  }

  predicate Resets(k: Stroke) { k == Submit || k == Wipe }

  /** Whatever was typed before the last Enter or Ctrl-L, and on whatever line, does not matter. */
  lemma SinceReset(line: Bytes, before: seq<Stroke>, k: Stroke, after: seq<Stroke>)
    requires |line| <= LIMIT && Resets(k)
    ensures EditAll(line, before + [k] + after) == EditAll([], after)
  {
    assert before + [k] + after == before + ([k] + after);
    EditAllOn(line, before, [k] + after);
    assert ([k] + after)[1..] == after;
  }

  /** Main result: over any run, programs, switches and other terminals included, the line of a terminal is exactly the
      characters typed there since the last Enter or Ctrl-L there. */
  lemma LineSinceReset(img: Bytes, y: Sys, m: Machine, events: seq<Event>, t: int, before: seq<Stroke>, k: Stroke,
                       chars: Bytes)
    requires Sound(img) && Good(img, y, m) && IsHistory(img, y, events) && 0 <= t < TERMINALS
    requires StrokesIn(img, y, events, t) == before + [k] + Types(chars) && Resets(k) && |chars| <= 128
    ensures |AdvanceAll(img, y, events).lines| == TERMINALS && AdvanceAll(img, y, events).lines[t] == chars
  {
    hide Refines, FileCalls.Inv, Forest.Agrees, Readers, IsHistory, StrokesIn, AdvanceAll;
    SystemRuns.LineIsFold(img, y, m, events, t);
    SinceReset(y.lines[t], before, k, Types(chars));
    TypedChars([], chars);
    assert [] + chars == chars;
  }

  /** So an Enter there, without Shift or Alt, hands over those characters and a newline. */
  lemma HandsOwnCharacters(img: Bytes, y: Sys, m: Machine, events: seq<Event>, before: seq<Stroke>, k: Stroke,
                           chars: Bytes, junk: Bytes)
    requires Sound(img) && Good(img, y, m) && IsHistory(img, y, events) && |junk| >= HEADER
    requires var y' := AdvanceAll(img, y, events);
             && Typing(y') && !Shifted(y'.mods) && !y'.mods.pressed[LEFT_ALT]
             && StrokesIn(img, y, events, y'.procs.view.display) == before + [k] + Types(chars)
    requires Resets(k) && |chars| < 128
    ensures var y' := AdvanceAll(img, y, events);
            CanDo(img, y', Scan(ENTER, junk)) &&
            var y2 := Advance(img, y', Scan(ENTER, junk));
            Typing(y2) && HandedOver(y2, chars + [NEWLINE])
  {
    hide Refines, FileCalls.Inv, Advance, IsHistory, StrokesIn, AdvanceAll, Forest.Agrees, Readers;
    var y' := AdvanceAll(img, y, events);
    var m1 := RunIsGood(img, y, m, events);
    LineSinceReset(img, y, m, events, y'.procs.view.display, before, k, chars);
    var m2 := EventIsGood(img, y', m1, Scan(ENTER, junk));
    EnterHands(img, y', junk);
  }
}
