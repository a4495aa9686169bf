/** The sliding-buffer search of ece391grep.c against a search of the whole file. */
module Grep {
  import opened Words

  const BUFSIZE := 1024

  /** The first newline of a file, or its length. */
  function LineLength(f: Bytes, i: int := 0): (r: int)
    requires 0 <= i <= |f|
    ensures i <= r <= |f| && (forall j :: i <= j < r ==> f[j] != NEWLINE) && (r < |f| ==> f[r] == NEWLINE)
    decreases |f| - i
  {
    if i == |f| || f[i] == NEWLINE then i else LineLength(f, i + 1)
  }

  /** The lines of a file. */
  function Lines(f: Bytes): (r: seq<Bytes>)
    decreases |f|
  {
    var k := LineLength(f);
    if k == |f| then [f] else [f[..k]] + Lines(f[k + 1..])
  }

  /** Lines with a newline between each two. */
  function Unsplit(lines: seq<Bytes>): Bytes {
    if lines == [] then [] else if |lines| == 1 then lines[0] else lines[0] + [NEWLINE] + Unsplit(lines[1..])
  }

  /** The lines are the file, cut at its newlines. */
  lemma {:induction false} LinesAreTheFile(f: Bytes)
    ensures Lines(f) != [] && Unsplit(Lines(f)) == f
    ensures forall i :: 0 <= i < |Lines(f)| ==> NEWLINE !in Lines(f)[i]
    decreases |f|
  {
    var k := LineLength(f);
    if k < |f| {
      LinesAreTheFile(f[k + 1..]);
      assert Lines(f) == [f[..k]] + Lines(f[k + 1..]);
      assert Lines(f)[1..] == Lines(f[k + 1..]);
      assert f == f[..k] + [NEWLINE] + f[k + 1..];
    }
  }

  /** What the program treats as lines: a line is cut after every 1024 characters. */
  function Pieces(f: Bytes): (r: seq<Bytes>)
    decreases |f|
  {
    var k := LineLength(f);
    if k >= BUFSIZE then [f[..BUFSIZE]] + Pieces(f[BUFSIZE..])
    else if k == |f| then [f]
    else [f[..k]] + Pieces(f[k + 1..])
  }

  ghost predicate OccursAt(line: Bytes, s: Bytes, k: int) { 0 <= k && k + |s| <= |line| && line[k..k + |s|] == s }

  /** A line is printed when it contains the search string; the empty string is never found. */
  ghost predicate Hit(line: Bytes, s: Bytes) { s != [] && exists k :: OccursAt(line, s, k) }

  ghost function Hits(lines: seq<Bytes>, s: Bytes): seq<Bytes> {
    if lines == [] then [] else (if Hit(lines[0], s) then [lines[0]] else []) + Hits(lines[1..], s)
  }

  /** Character i of a C string, terminator included. */
  function CharOf(s: Bytes, i: int): Byte
    requires 0 <= i <= |s|
  {
    if i < |s| then s[i] else NUL
  }

  lemma Mismatch(line: Bytes, s: Bytes, k: int, i: int)
    requires 0 <= k && 0 <= i < |s| && (k + i < |line| ==> line[k + i] != s[i])
    ensures !OccursAt(line, s, k)
  {
    assert k + |s| <= |line| ==> line[k..k + |s|][i] == line[k + i];
  }

  /** ece391_strncmp of a buffer position with the search string: 0 or not. */
  method Differs(data: array<Byte>, at: int, s: Bytes, ghost line: Bytes, ghost k: int) returns (r: bool)
    requires 0 <= k < |line| && 0 <= at && at + |line| - k < data.Length && NUL !in line && NUL !in s
    requires forall j :: k <= j < |line| ==> data[at - k + j] == line[j]
    requires data[at + |line| - k] == NUL
    ensures !r <==> OccursAt(line, s, k)
  {
    var i := 0;
    while i < |s|
      invariant 0 <= i <= |s| && k + i <= |line|
      invariant line[k..k + i] == s[..i]
    {
      assert s[i] in s;
      assert k + i < |line| ==> data[at - k + (k + i)] == line[k + i];
      if data[at + i] != s[i] {
        Mismatch(line, s, k, i);
        return true;
      }
      assert line[k..k + i + 1] == line[k..k + i] + [line[k + i]];
      i := i + 1;
    }
    assert s[..|s|] == s;
    return false;
  }

  /** The for loop over one line, whose end has been overwritten by a NUL. */
  method SearchLine(data: array<Byte>, lineStart: int, lineEnd: int, s: Bytes, ghost line: Bytes) returns (found: bool)
    requires 0 <= lineStart <= lineEnd < data.Length && lineEnd - lineStart == |line|
    requires NUL !in line && NUL !in s
    requires forall j :: 0 <= j < |line| ==> data[lineStart + j] == line[j]
    requires data[lineEnd] == NUL
    ensures found <==> Hit(line, s)
  {
    var check := lineStart;
    while check < lineEnd
      invariant lineStart <= check <= lineEnd
      invariant forall k :: 0 <= k < check - lineStart ==> !(s != [] && OccursAt(line, s, k))
    {
      ghost var k := check - lineStart;
      assert data[lineStart + k] == line[k];
      assert line[k] in line;
      if CharOf(s, 0) == data[check] {
        var differs := Differs(data, check, s, line, k);
        if !differs { return true; }
      } else {
        if s != [] { Mismatch(line, s, k, 0); }
      }
      check := check + 1;
    }
    return false;
  }

  /** ece391_strcpy(data, data + from): the n bytes before the NUL at from + n move to the front. */
  method Strcpy(data: array<Byte>, from: int, ghost n: int)
    requires 0 < from && 0 <= n && from + n < data.Length && data[from + n] == NUL
    requires forall j :: from <= j < from + n ==> data[j] != NUL
    modifies data
    ensures forall j :: 0 <= j < n ==> data[j] == old(data[from + j])
    ensures data[n] == NUL && forall j :: n < j < data.Length ==> data[j] == old(data[j])
  {
    var i := 0;
    while data[from + i] != NUL
      invariant 0 <= i <= n
      invariant forall j :: 0 <= j < i ==> data[j] == old(data[from + j])
      invariant forall j :: i <= j < data.Length ==> data[j] == old(data[j])
      decreases n - i
    {
      data[i] := data[from + i];
      i := i + 1;
    }
    data[i] := NUL;
  }

  /** ece391_read at position pos of the open file: short only at the end of the file. */
  method ReadInto(file: Bytes, pos: int, data: array<Byte>, at: int, n: int) returns (cnt: int)
    requires 0 <= pos <= |file| && 0 <= at && 0 <= n && at + n <= data.Length
    modifies data
    ensures cnt == if n <= |file| - pos then n else |file| - pos
    ensures forall j :: 0 <= j < data.Length ==>
              data[j] == if at <= j < at + cnt then file[pos + (j - at)] else old(data[j])
  {
    cnt := if n <= |file| - pos then n else |file| - pos;
    var i := 0;
    while i < cnt
      invariant 0 <= i <= cnt
      invariant forall j :: 0 <= j < data.Length ==>
                  data[j] == if at <= j < at + i then file[pos + (j - at)] else old(data[j])
    {
      data[at + i] := file[pos + i];
      i := i + 1;
    }
  }

  /** Buffer cells from..to hold the file from `base` on. */
  ghost predicate Mirrors(d: Bytes, from: int, to: int, file: Bytes, base: int) {
    && 0 <= from <= to <= |d| && 0 <= base + from && base + to <= |file|
    && forall j :: from <= j < to ==> d[j] == file[base + j]
  }

  /** Everything before file position p has been reported. */
  ghost predicate Reported(hits: seq<Bytes>, file: Bytes, p: int, s: Bytes) {
    0 <= p <= |file| && hits + Hits(Pieces(file[p..]), s) == Hits(Pieces(file), s)
  }

  ghost function WithHit(hits: seq<Bytes>, line: Bytes, s: Bytes): seq<Bytes> {
    if Hit(line, s) then hits + [line] else hits
  }

  /** A piece ends at a newline inside the buffer. */
  lemma ReportLine(hits: seq<Bytes>, file: Bytes, p: int, k: int, s: Bytes)
    requires Reported(hits, file, p, s) && 0 <= k < BUFSIZE && p + k < |file|
    requires file[p + k] == NEWLINE && forall j :: p <= j < p + k ==> file[j] != NEWLINE
    ensures Reported(WithHit(hits, file[p..p + k], s), file, p + k + 1, s)
  {
    var rest, line, after := file[p..], file[p..p + k], file[p + k + 1..];
    assert LineLength(rest) == k;
    assert rest[..k] == line && rest[k + 1..] == after;
    assert Pieces(rest) == [line] + Pieces(after);
    HitsCons(line, Pieces(after), s);
  }

  /** A piece ends at the end of a full buffer, or at the end of the file. */
  lemma ReportCut(hits: seq<Bytes>, file: Bytes, p: int, k: int, s: Bytes)
    requires Reported(hits, file, p, s) && 0 <= k <= BUFSIZE && p + k <= |file|
    requires k == BUFSIZE || p + k == |file|
    requires forall j :: p <= j < p + k ==> file[j] != NEWLINE
    ensures Reported(WithHit(hits, file[p..p + k], s), file, p + k, s)
  {
    var rest := file[p..];
    assert rest[..k] == file[p..p + k];
    if k == BUFSIZE {
      assert LineLength(rest) >= BUFSIZE;
      assert rest[BUFSIZE..] == file[p + k..];
      assert Pieces(rest) == [file[p..p + k]] + Pieces(file[p + k..]);
      HitsCons(file[p..p + k], Pieces(file[p + k..]), s);
    } else {
      assert LineLength(rest) == k && rest == file[p..p + k];
      assert file[p + k..] == [];
      assert Pieces([]) == [[]] && Hits([[]], s) == [] by { NothingInEmpty(s); }
      assert Pieces(rest) == [rest] && Hits([rest][1..], s) == [];
    }
  }

  lemma NothingInEmpty(s: Bytes)
    ensures !Hit([], s) && Pieces([]) == [[]] && Hits([[]], s) == []
  {
  }

  /** The innermost scan: the next newline, or the end of the filled part. */
  method FindLineEnd(data: array<Byte>, lineStart: int, filled: int, ghost file: Bytes, ghost base: int)
    returns (lineEnd: int)
    requires Mirrors(data[..], lineStart, filled, file, base)
    ensures lineStart <= lineEnd <= filled
    ensures forall j :: base + lineStart <= j < base + lineEnd ==> file[j] != NEWLINE
    ensures lineEnd < filled ==> data[lineEnd] == file[base + lineEnd] == NEWLINE
  {
    lineEnd := lineStart;
    while lineEnd < filled && data[lineEnd] != NEWLINE
      invariant lineStart <= lineEnd <= filled
      invariant forall j :: base + lineStart <= j < base + lineEnd ==> file[j] != NEWLINE
    {
      assert data[..][lineEnd] == file[base + lineEnd];
      lineEnd := lineEnd + 1;
    }
    if lineEnd < filled { assert data[..][lineEnd] == file[base + lineEnd]; }
  }

  /** An unfinished last line moves to the front of the buffer. */
  method KeepTail(data: array<Byte>, lineStart: int, filled: int, ghost file: Bytes, ghost base: int)
    requires data.Length == BUFSIZE + 1 && 0 < lineStart < filled <= BUFSIZE && NUL !in file
    requires Mirrors(data[..], lineStart, filled, file, base) && data[BUFSIZE] != NEWLINE
    modifies data
    ensures Mirrors(data[..], 0, filled - lineStart, file, base + lineStart) && data[BUFSIZE] != NEWLINE
  {
    data[filled] := NUL;
    forall j | lineStart <= j < filled ensures data[j] == file[base + j] && data[j] != NUL {
      assert file[base + j] in file;
    }
    Strcpy(data, lineStart, filled - lineStart);
    assert forall j :: 0 <= j < filled - lineStart ==> data[..][j] == file[base + lineStart + j];
  }

  /** Terminate, search and report one piece. */
  method ReportPiece(data: array<Byte>, lineStart: int, lineEnd: int, filled: int, s: Bytes, hits0: seq<Bytes>,
                     ghost file: Bytes, ghost base: int, ghost line: Bytes) returns (hits: seq<Bytes>)
    requires data.Length == BUFSIZE + 1 && NUL !in file && NUL !in s && lineStart <= lineEnd <= filled <= BUFSIZE
    requires Mirrors(data[..], lineStart, filled, file, base) && data[BUFSIZE] != NEWLINE
    requires line == file[base + lineStart..base + lineEnd]
    modifies data
    ensures forall j :: 0 <= j <= BUFSIZE && j != lineEnd ==> data[j] == old(data[j])
    ensures data[BUFSIZE] != NEWLINE
    ensures hits == WithHit(hits0, line, s)
  {
    forall j | 0 <= j < |line| ensures data[lineStart + j] == line[j] && line[j] != NUL {
      assert data[..][lineStart + j] == file[base + (lineStart + j)];
      assert line[j] in file;
    }
    data[lineEnd] := NUL;
    var found := SearchLine(data, lineStart, lineEnd, s, line);
    hits := hits0;
    if found {
      assert data[lineStart..lineEnd] == line;
      hits := hits + [data[lineStart..lineEnd]];
    }
  }

  /** Where the next piece starts: after a newline, or right after a cut. */
  function NextStart(lineEnd: int, filled: int): int { if lineEnd < filled then lineEnd + 1 else lineEnd }

  /** The piece from p on ends where the scan stopped, so reporting it moves the frontier. */
  lemma ReportNext(hits: seq<Bytes>, file: Bytes, p: int, k: int, newline: bool, s: Bytes, line: Bytes, next: int)
    requires Reported(hits, file, p, s) && 0 <= k <= BUFSIZE && p + k <= |file| && line == file[p..p + k]
    requires forall j :: p <= j < p + k ==> file[j] != NEWLINE
    requires newline ==> k < BUFSIZE && p + k < |file| && file[p + k] == NEWLINE
    requires !newline ==> k == BUFSIZE || p + k == |file|
    requires next == if newline then p + k + 1 else p + k
    ensures Reported(WithHit(hits, line, s), file, next, s)
  {
    if newline { ReportLine(hits, file, p, k, s); } else { ReportCut(hits, file, p, k, s); }
  }

  /** The piece just searched is the next one of the file. */
  method ConsumePiece(data: array<Byte>, lineStart: int, lineEnd: int, filled: int, s: Bytes, hits0: seq<Bytes>,
                      ghost file: Bytes, ghost base: int, ghost p: int) returns (hits: seq<Bytes>, ghost next: int)
    requires data.Length == BUFSIZE + 1 && NUL !in file && NUL !in s && 0 <= lineStart <= lineEnd <= filled <= BUFSIZE
    requires Mirrors(data[..], lineStart, filled, file, base) && data[BUFSIZE] != NEWLINE
    requires p == base + lineStart && Reported(hits0, file, p, s)
    requires forall j :: p <= j < base + lineEnd ==> file[j] != NEWLINE
    requires lineEnd < filled ==> file[base + lineEnd] == NEWLINE
    requires lineEnd == filled ==> (lineStart == 0 && filled == BUFSIZE) || base + filled == |file|
    modifies data
    ensures next == base + NextStart(lineEnd, filled) && Reported(hits, file, next, s)
    ensures Mirrors(data[..], NextStart(lineEnd, filled), filled, file, base) && data[BUFSIZE] != NEWLINE
  {
    next := base + NextStart(lineEnd, filled);
    ghost var line := file[p..base + lineEnd];
    ReportNext(hits0, file, p, lineEnd - lineStart, lineEnd < filled, s, line, next);
    ghost var d := data[..];
    hits := ReportPiece(data, lineStart, lineEnd, filled, s, hits0, file, base, line);
    StillMirrors(d, data[..], lineStart, lineEnd, filled, file, base);
  }

  lemma StillMirrors(d: Bytes, d': Bytes, lineStart: int, lineEnd: int, filled: int, file: Bytes, base: int)
    requires Mirrors(d, lineStart, filled, file, base) && |d'| == |d| && lineStart <= lineEnd <= filled
    requires forall j :: 0 <= j < |d| && j != lineEnd ==> d'[j] == d[j]
    ensures Mirrors(d', NextStart(lineEnd, filled), filled, file, base)
  {
  }

  /** One pass over a freshly filled buffer: report every piece that ends in it, and move an unfinished
      last line to the front. Returns how many bytes were kept. */
  method ScanBuffer(file: Bytes, pos: int, s: Bytes, data: array<Byte>, filled: int, cnt: int, hits0: seq<Bytes>)
    returns (last: int, hits: seq<Bytes>, ghost p: int)
    requires NUL !in file && NUL !in s && data.Length == BUFSIZE + 1
    requires 0 <= filled <= BUFSIZE && filled <= pos <= |file|
    requires Mirrors(data[..], 0, filled, file, pos - filled) && data[BUFSIZE] != NEWLINE
    requires filled == BUFSIZE || pos == |file|
    requires cnt == 0 ==> filled < BUFSIZE
    requires Reported(hits0, file, pos - filled, s)
    modifies data
    ensures 0 <= last < BUFSIZE && last <= pos && p == pos - last && Reported(hits, file, p, s)
    ensures Mirrors(data[..], 0, last, file, p) && data[BUFSIZE] != NEWLINE
    ensures cnt == 0 ==> last == 0
  {
    hits := hits0;
    ghost var base := pos - filled;
    p := base;
    var lineStart := 0;
    while true
      invariant 0 <= lineStart <= filled && (lineStart > 0 ==> lineStart < filled)
      invariant Mirrors(data[..], lineStart, filled, file, base) && data[BUFSIZE] != NEWLINE
      invariant p == base + lineStart && Reported(hits, file, p, s)
      decreases filled - lineStart
    {
      var lineEnd := FindLineEnd(data, lineStart, filled, file, base);
      if data[lineEnd] != NEWLINE && cnt != 0 && lineStart != 0 {
        KeepTail(data, lineStart, filled, file, base);
        last := filled - lineStart;
        return;
      }
      hits, p := ConsumePiece(data, lineStart, lineEnd, filled, s, hits, file, base, p);
      lineStart := lineEnd + 1;
      if lineStart >= filled {
        last := 0;
        return;
      }
    }
  }

  /** do_one_file on an opened file; `data` is its uninitialised buffer, whose extra byte must not hold a newline. */
  method DoOneFile(s: Bytes, file: Bytes, data: array<Byte>) returns (hits: seq<Bytes>)
    requires NUL !in file && NUL !in s && data.Length == BUFSIZE + 1 && data[BUFSIZE] != NEWLINE
    modifies data
    ensures hits == Hits(Pieces(file), s)
  {
    hits := [];
    var last, pos := 0, 0;
    ghost var p := 0;
    assert file[0..] == file;
    while true
      invariant 0 <= last < BUFSIZE && last <= pos <= |file| && data[BUFSIZE] != NEWLINE
      invariant p == pos - last && Mirrors(data[..], 0, last, file, p) && Reported(hits, file, p, s)
      decreases |file| - pos
    {
      ghost var d := data[..];
      var cnt := ReadInto(file, pos, data, last, BUFSIZE - last);
      assert forall j :: 0 <= j < last ==> data[..][j] == d[j];
      pos := pos + cnt;
      last, hits, p := ScanBuffer(file, pos, s, data, last + cnt, cnt, hits);
      if cnt == 0 { break; }
    }
    assert file[pos..] == [];
    NothingInEmpty(s);
  }

  lemma {:induction false} HitsOf(lines: seq<Bytes>, s: Bytes, line: Bytes)
    ensures line in Hits(lines, s) <==> line in lines && Hit(line, s)
  {
    if lines != [] { HitsOf(lines[1..], s, line); }
  }

  lemma {:induction false} PiecesFit(f: Bytes, piece: Bytes)
    requires piece in Pieces(f)
    ensures |piece| <= BUFSIZE
    decreases |f|
  {
    var k := LineLength(f);
    if k >= BUFSIZE {
      if piece in Pieces(f[BUFSIZE..]) { PiecesFit(f[BUFSIZE..], piece); }
    } else if k < |f| {
      if piece in Pieces(f[k + 1..]) { PiecesFit(f[k + 1..], piece); }
    }
  }

  /** A string found in part of a line is found in the line. */
  lemma HitInPart(line: Bytes, from: int, to: int, s: Bytes)
    requires 0 <= from <= to <= |line| && Hit(line[from..to], s)
    ensures Hit(line, s)
  {
    var k :| OccursAt(line[from..to], s, k);
    var part, whole := line[from..to][k..k + |s|], line[from + k..from + k + |s|];
    assert forall j :: 0 <= j < |s| ==> part[j] == whole[j];
    assert part == whole;
    assert OccursAt(line, s, from + k);
  }

  /** No line longer than the buffer contains the search string. */
  ghost predicate NoLongHit(f: Bytes, s: Bytes) {
    forall line :: line in Lines(f) && |line| > BUFSIZE ==> !Hit(line, s)
  }

  /** Cutting 1024 characters off the first line changes only that line. */
  lemma CutFirstLine(f: Bytes)
    requires LineLength(f) >= BUFSIZE
    ensures LineLength(f[BUFSIZE..]) == LineLength(f) - BUFSIZE
    ensures Lines(f[BUFSIZE..]) == [f[BUFSIZE..LineLength(f)]] + Lines(f)[1..]
    ensures Lines(f)[0] == f[..LineLength(f)]
  {
    var g, k := f[BUFSIZE..], LineLength(f);
    assert LineLength(g) == k - BUFSIZE;
    if k < |f| {
      assert g[k - BUFSIZE + 1..] == f[k + 1..];
      assert g[..k - BUFSIZE] == f[BUFSIZE..k];
    } else {
      assert f[..k] == f && f[BUFSIZE..k] == g;
    }
  }

  /** The part of a long line behind the cut. */
  lemma CutLine(f: Bytes, s: Bytes)
    requires LineLength(f) >= BUFSIZE && NoLongHit(f, s)
    ensures var g, rest := f[BUFSIZE..], f[BUFSIZE..LineLength(f)];
            && NoLongHit(g, s)
            && Hits(Lines(f), s) == (if Hit(f[..BUFSIZE], s) then [f[..BUFSIZE]] else []) + Hits(Lines(g), s)
  {
    var g, k := f[BUFSIZE..], LineLength(f);
    CutFirstLine(f);
    var rest, tail := f[BUFSIZE..k], Lines(f)[1..];
    assert Lines(f) == [f[..k]] + tail && Lines(g) == [rest] + tail;
    PartsMiss(f[..k], s);
    assert f[..k][..BUFSIZE] == f[..BUFSIZE] && f[..k][BUFSIZE..] == rest;
    assert f[..k] in Lines(f);
    HitsCons(f[..k], tail, s);
    HitsCons(rest, tail, s);
    if k == BUFSIZE { assert rest == []; }
  }

  lemma HitsCons(line: Bytes, lines: seq<Bytes>, s: Bytes)
    ensures Hits([line] + lines, s) == (if Hit(line, s) then [line] else []) + Hits(lines, s)
  {
    assert ([line] + lines)[1..] == lines;
  }

  /** A line without the string has it in neither part. */
  lemma PartsMiss(line: Bytes, s: Bytes)
    requires |line| >= BUFSIZE
    ensures !Hit(line, s) ==> !Hit(line[..BUFSIZE], s) && !Hit(line[BUFSIZE..], s)
  {
    assert line[0..BUFSIZE] == line[..BUFSIZE] && line[BUFSIZE..|line|] == line[BUFSIZE..];
    if Hit(line[..BUFSIZE], s) { HitInPart(line, 0, BUFSIZE, s); }
    if Hit(line[BUFSIZE..], s) { HitInPart(line, BUFSIZE, |line|, s); }
  }

  lemma {:induction false} CutsAreHarmless(f: Bytes, s: Bytes)
    requires NoLongHit(f, s)
    ensures Hits(Pieces(f), s) == Hits(Lines(f), s)
    decreases |f|
  {
    var k := LineLength(f);
    if k >= BUFSIZE {
      CutLine(f, s);
      CutsAreHarmless(f[BUFSIZE..], s);
      HitsCons(f[..BUFSIZE], Pieces(f[BUFSIZE..]), s);
    } else if k < |f| {
      var rest := f[k + 1..];
      assert Lines(f) == [f[..k]] + Lines(rest);
      forall line | line in Lines(rest) && |line| > BUFSIZE ensures !Hit(line, s) { assert line in Lines(f); }
      CutsAreHarmless(rest, s);
      HitsCons(f[..k], Pieces(rest), s);
      HitsCons(f[..k], Lines(rest), s);
    }
  }

  /** Main result: the program prints exactly the lines of the whole file that contain the string, in order and
      once each, if and only if no line of more than 1024 characters contains it. */
  lemma SameAsWholeFileIff(f: Bytes, s: Bytes)
    ensures Hits(Pieces(f), s) == Hits(Lines(f), s) <==> NoLongHit(f, s)
  {
    if NoLongHit(f, s) {
      CutsAreHarmless(f, s);
    } else {
      var line :| line in Lines(f) && |line| > BUFSIZE && Hit(line, s);
      HitsOf(Lines(f), s, line);
      HitsOf(Pieces(f), s, line);
      if line in Pieces(f) { PiecesFit(f, line); }
    }
  }

  /** A single line of 1025 characters: it contains "a", and is not printed as a line. */
  lemma LongLineIsCut()
    ensures var f: Bytes := seq(BUFSIZE + 1, _ => 97);
            Hits(Pieces(f), [97]) != Hits(Lines(f), [97])
  {
    var f: Bytes := seq(BUFSIZE + 1, _ => 97);
    assert OccursAt(f, [97], 0);
    assert Lines(f) == [f];
    SameAsWholeFileIff(f, [97]);
  }
}
