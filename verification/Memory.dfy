/** The head, doubleword body and tail of lib.c's memory routines, on one flat memory. */
module Memory {
  import opened Words

  /** Byte a of memory m after n bytes from `src` on were copied to `dest` on. */
  ghost function CopiedByte(m: Bytes, dest: int, src: int, n: int, a: int): Byte
    requires 0 <= src && 0 <= n && src + n <= |m| && 0 <= a < |m|
  {
    if dest <= a < dest + n then m[src + (a - dest)] else m[a]
  }

  ghost predicate Copied(m': Bytes, m: Bytes, dest: int, src: int, n: int)
    requires 0 <= src && 0 <= n && src + n <= |m|
  {
    |m'| == |m| && forall a :: 0 <= a < |m| ==> m'[a] == CopiedByte(m, dest, src, n, a)
  }

  ghost predicate Filled(m': Bytes, m: Bytes, s: int, n: int, c: Byte) {
    |m'| == |m| && forall a :: 0 <= a < |m| ==> m'[a] == if s <= a < s + n then c else m[a]
  }

  /** stosl: one doubleword of four equal bytes */
  method StoreDword(m: array<Byte>, a: int, c: Byte)
    requires 0 <= a && a + 4 <= m.Length
    modifies m
    ensures Filled(m[..], old(m[..]), a, 4, c)
  {
    m[a], m[a + 1], m[a + 2], m[a + 3] := c, c, c, c;
  }

  /** movsl: the four bytes are read before any is written */
  method MoveDword(m: array<Byte>, dest: int, src: int)
    requires 0 <= src && src + 4 <= m.Length && 0 <= dest && dest + 4 <= m.Length
    modifies m
    ensures Copied(m[..], old(m[..]), dest, src, 4)
  {
    m[dest], m[dest + 1], m[dest + 2], m[dest + 3] := m[src], m[src + 1], m[src + 2], m[src + 3];
  }

  /** memset: every alignment and length writes exactly what a byte loop would. */
  method Memset(m: array<Byte>, s: int, c: int, n: int)
    requires 0 <= s && 0 <= n && s + n <= m.Length
    modifies m
    ensures Filled(m[..], old(m[..]), s, n, c % 256)
  {
    var al := c % 256;
    var edi, ecx := s, n;
    while ecx != 0 && edi % 4 != 0
      invariant s <= edi && 0 <= ecx && edi + ecx == s + n && Filled(m[..], old(m[..]), s, edi - s, al)
    {
      m[edi] := al;
      edi, ecx := edi + 1, ecx - 1;
    }
    if ecx == 0 { return; }
    var edx := ecx % 4;
    ecx := ecx / 4;
    while ecx != 0
      invariant s <= edi && 0 <= ecx && edi + 4 * ecx + edx == s + n && Filled(m[..], old(m[..]), s, edi - s, al)
    {
      StoreDword(m, edi, al);
      edi, ecx := edi + 4, ecx - 1;
    }
    while edx != 0
      invariant s <= edi && 0 <= edx && edi + edx == s + n && Filled(m[..], old(m[..]), s, edi - s, al)
    {
      m[edi] := al;
      edi, edx := edi + 1, edx - 1;
    }
  }

  /** The destination starts inside the source: a forward copy overwrites what it has yet to read. */
  predicate Overlaps(dest: int, src: int, n: int) { src < dest < src + n }

  /** A forward copy of n bytes has done the first k: nothing else is touched, and they are right unless the areas
      overlap. */
  ghost predicate Moved(m': Bytes, m: Bytes, dest: int, src: int, n: int, k: int)
    requires 0 <= src && 0 <= k <= n && src + n <= |m|
  {
    && |m'| == |m|
    && (forall a :: 0 <= a < |m| && !(dest <= a < dest + k) ==> m'[a] == m[a])
    && (!Overlaps(dest, src, n) ==> Copied(m', m, dest, src, k))
  }

  /** Copying on from a state in which the first k bytes are done. */
  lemma CopyOn(m0: Bytes, m1: Bytes, m2: Bytes, dest: int, src: int, n: int, k: int, j: int)
    requires 0 <= src && 0 <= dest && 0 <= k && 0 <= j && k + j <= n && src + n <= |m0| && dest + n <= |m0|
    requires Moved(m1, m0, dest, src, n, k) && Copied(m2, m1, dest + k, src + k, j)
    ensures Moved(m2, m0, dest, src, n, k + j)
  {
  }

  /** One byte of the head or tail; the registers edi and esi are dest + done and src + done. */
  method MoveByte(m: array<Byte>, dest: int, src: int, n: int, done: int, ghost m0: Bytes) returns (r: int)
    requires 0 <= src && 0 <= dest && 0 <= done < n && src + n <= m.Length && dest + n <= m.Length
    requires |m0| == m.Length && Moved(m[..], m0, dest, src, n, done)
    modifies m
    ensures r == done + 1 && Moved(m[..], m0, dest, src, n, r)
  {
    ghost var m1 := m[..];
    m[dest + done] := m[src + done];
    CopyOn(m0, m1, m[..], dest, src, n, done, 1);
    r := done + 1;
  }

  method MoveFour(m: array<Byte>, dest: int, src: int, n: int, done: int, ghost m0: Bytes) returns (r: int)
    requires 0 <= src && 0 <= dest && 0 <= done && done + 4 <= n && src + n <= m.Length && dest + n <= m.Length
    requires |m0| == m.Length && Moved(m[..], m0, dest, src, n, done)
    modifies m
    ensures r == done + 4 && Moved(m[..], m0, dest, src, n, r)
  {
    ghost var m1 := m[..];
    MoveDword(m, dest + done, src + done);
    CopyOn(m0, m1, m[..], dest, src, n, done, 4);
    r := done + 4;
  }

  /** memcpy: writes nothing but the destination, and is correct whenever that does not start inside the source. */
  method Memcpy(m: array<Byte>, dest: int, src: int, n: int)
    requires 0 <= src && 0 <= dest && 0 <= n && src + n <= m.Length && dest + n <= m.Length
    modifies m
    ensures Moved(m[..], old(m[..]), dest, src, n, n)
  {
    ghost var m0 := m[..];
    var done := 0;
    while done != n && (dest + done) % 4 != 0
      invariant 0 <= done <= n && Moved(m[..], m0, dest, src, n, done)
    {
      done := MoveByte(m, dest, src, n, done, m0);
    }
    if done == n { return; }
    var edx := (n - done) % 4;
    var ecx := (n - done) / 4;
    while ecx != 0
      invariant 0 <= ecx && 0 <= done && done + 4 * ecx + edx == n && Moved(m[..], m0, dest, src, n, done)
    {
      done := MoveFour(m, dest, src, n, done, m0);
      ecx := ecx - 1;
    }
    while edx != 0
      invariant 0 <= edx && 0 <= done && done + edx == n && Moved(m[..], m0, dest, src, n, done)
    {
      done := MoveByte(m, dest, src, n, done, m0);
      edx := edx - 1;
    }
  }

  /** The last k of n bytes have been copied, from the end backwards. */
  ghost predicate CopiedBack(m': Bytes, m: Bytes, dest: int, src: int, n: int, k: int)
    requires 0 <= src && 0 <= k <= n && src + n <= |m|
  {
    Copied(m', m, dest + (n - k), src + (n - k), k)
  }

  /** memmove: the right final memory for every overlap. */
  method Memmove(m: array<Byte>, dest: int, src: int, n: int)
    requires 0 <= src && 0 <= dest && 0 <= n && src + n <= m.Length && dest + n <= m.Length
    modifies m
    ensures Copied(m[..], old(m[..]), dest, src, n)
  {
    ghost var m0 := m[..];
    var done := 0;
    if src >= dest {
      while done != n
        invariant 0 <= done <= n && Moved(m[..], m0, dest, src, n, done)
      {
        done := MoveByte(m, dest, src, n, done, m0);
      }
    } else {
      while done != n
        invariant 0 <= done <= n && CopiedBack(m[..], m0, dest, src, n, done)
      {
        ghost var m1 := m[..];
        m[dest + n - 1 - done] := m[src + n - 1 - done];
        BackOn(m0, m1, m[..], dest, src, n, done);
        done := done + 1;
      }
    }
  }

  lemma BackOn(m0: Bytes, m1: Bytes, m2: Bytes, dest: int, src: int, n: int, k: int)
    requires 0 <= src < dest && 0 <= k < n && src + n <= |m0| && dest + n <= |m0| && |m1| == |m0|
    requires CopiedBack(m1, m0, dest, src, n, k)
    requires m2 == m1[dest + n - 1 - k := m1[src + n - 1 - k]]
    ensures CopiedBack(m2, m0, dest, src, n, k + 1)
  {
  }
}
