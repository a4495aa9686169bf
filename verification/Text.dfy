/** Number formatting: itoa with its in-place reversal, and the padded hexadecimal of printf. */
module Text {
  import opened Words

  const ZERO: Byte := 48

  /** Character i of the lookup string of digits and capital letters. */
  function Lookup(i: int): Byte
    requires 0 <= i < 36
  {
    if i < 10 then 48 + i else 55 + i
  }

  function DigitOf(c: Byte): int { if c < 58 then c as int - 48 else c as int - 55 }

  /** Digits, lowest place first. */
  function LowFirst(v: nat, radix: int): (r: Bytes)
    requires 2 <= radix <= 36
    ensures v > 0 ==> r != []
    decreases v
  {
    if v == 0 then []
    else
      assert v / radix < v;
      [Lookup(v % radix)] + LowFirst(v / radix, radix)
  }

  function Reverse(s: Bytes): (r: Bytes)
    ensures |r| == |s|
  {
    seq(|s|, i requires 0 <= i < |s| => s[|s| - 1 - i])
  }

  /** The printed form of a number. */
  function Printed(v: nat, radix: int): Bytes
    requires 2 <= radix <= 36
  {
    if v == 0 then [ZERO] else Reverse(LowFirst(v, radix))
  }

  /** The number a digit string stands for. */
  function Parse(s: Bytes, radix: int): int
  {
    if s == [] then 0 else Parse(s[..|s| - 1], radix) * radix + DigitOf(s[|s| - 1])
  }

  lemma ParseSnoc(s: Bytes, c: Byte, radix: int)
    ensures Parse(s + [c], radix) == Parse(s, radix) * radix + DigitOf(c)
  {
    assert (s + [c])[..|s|] == s;
  }

  lemma {:induction false} ParseReversed(v: nat, radix: int)
    requires 2 <= radix <= 36
    ensures Parse(Reverse(LowFirst(v, radix)), radix) == v
    decreases v
  {
    if v > 0 {
      Quotient(v, radix);
      ParseReversed(v / radix, radix);
      var low, rest := LowFirst(v, radix), LowFirst(v / radix, radix);
      assert low == [Lookup(v % radix)] + rest;
      assert Reverse(low) == Reverse(rest) + [low[0]];
      ParseSnoc(Reverse(rest), low[0], radix);
    }
  }

  lemma Quotient(v: nat, radix: int)
    requires 2 <= radix && v > 0
    ensures 0 <= v / radix < v && v == v / radix * radix + v % radix && 0 <= v % radix < radix
  {
  }

  lemma QuotientBound(v: nat, radix: int, p: nat)
    requires 2 <= radix && v < radix * p
    ensures v / radix < p
  {
    var q := v / radix;
    assert radix * q <= v;
    assert q >= p ==> radix * q >= radix * p;
  }

  /** The highest place is not zero. */
  lemma {:induction false} TopDigit(v: nat, radix: int)
    requires 2 <= radix <= 36 && v > 0
    ensures var low := LowFirst(v, radix); low[|low| - 1] != ZERO
    decreases v
  {
    Quotient(v, radix);
    if v / radix > 0 { TopDigit(v / radix, radix); }
  }

  /** Main result: parsing what itoa prints gives the number back, and only 0 starts with a zero. */
  lemma RoundTrip(v: nat, radix: int)
    requires 2 <= radix <= 36
    ensures Parse(Printed(v, radix), radix) == v
    ensures Printed(v, radix) != [] && (Printed(v, radix)[0] == ZERO <==> v == 0)
  {
    if v == 0 {
      assert [ZERO][..0] == [];
    } else {
      ParseReversed(v, radix);
      TopDigit(v, radix);
    }
  }

  function Power(b: nat, k: nat): nat { if k == 0 then 1 else b * Power(b, k - 1) }

  lemma {:induction false} FewDigits(v: nat, radix: int, k: nat)
    requires 2 <= radix <= 36 && v < Power(radix, k)
    ensures |LowFirst(v, radix)| <= k
    decreases k
  {
    if v > 0 {
      Quotient(v, radix);
      QuotientBound(v, radix, Power(radix, k - 1));
      FewDigits(v / radix, radix, k - 1);
    }
  }

  /** strrev of the n characters at `at` */
  method StrRev(buf: array<Byte>, at: int, n: int)
    requires 0 <= at && 0 <= n && at + n <= buf.Length
    modifies buf
    ensures forall i :: at <= i < at + n ==> buf[i] == old(buf[2 * at + n - 1 - i])
    ensures forall i :: 0 <= i < buf.Length && !(at <= i < at + n) ==> buf[i] == old(buf[i])
  {
    var beg, end := at, at + n - 1;
    while beg < end
      invariant at <= beg && beg - at == at + n - 1 - end && end >= beg - 1
      invariant forall i :: 0 <= i < buf.Length && !(at <= i < beg || end < i < at + n) ==> buf[i] == old(buf[i])
      invariant forall i :: at <= i < beg ==> buf[i] == old(buf[2 * at + n - 1 - i])
      invariant forall i :: end < i < at + n ==> buf[i] == old(buf[2 * at + n - 1 - i])
    {
      buf[beg], buf[end] := buf[end], buf[beg];
      beg, end := beg + 1, end - 1;
    }
  }

  /** The digit loop of itoa, lowest place first. */
  method WriteLowFirst(value: int, buf: array<Byte>, at: int, radix: int) returns (n: int)
    requires 2 <= radix <= 36 && 0 <= value && 0 <= at && at + |LowFirst(value, radix)| <= buf.Length
    modifies buf
    ensures n == |LowFirst(value, radix)| && forall i :: at <= i < at + n ==> buf[i] == LowFirst(value, radix)[i - at]
    ensures forall i :: 0 <= i < buf.Length && !(at <= i < at + n) ==> buf[i] == old(buf[i])
  {
    ghost var low := LowFirst(value, radix);
    var newval := value;
    n := 0;
    while newval > 0
      invariant 0 <= newval && 0 <= n <= |low| && LowFirst(newval, radix) == low[n..]
      invariant forall i :: at <= i < at + n ==> buf[i] == low[i - at]
      invariant forall i :: 0 <= i < buf.Length && !(at <= i < at + n) ==> buf[i] == old(buf[i])
      decreases newval
    {
      Quotient(newval, radix);
      assert low[n..][0] == low[n] && low[n..][1..] == low[n + 1..];
      buf[at + n] := Lookup(newval % radix);
      n := n + 1;
      newval := newval / radix;
    }
  }

  /** itoa at position `at` of the buffer; returns the string's length. */
  method Itoa(value: Word, buf: array<Byte>, at: int, radix: int) returns (n: int)
    requires 2 <= radix <= 36 && 0 <= at && at + |Printed(value, radix)| < buf.Length
    modifies buf
    ensures n == |Printed(value, radix)| && buf[at..at + n] == Printed(value, radix) && buf[at + n] == NUL
    ensures forall i :: 0 <= i < buf.Length && !(at <= i <= at + n) ==> buf[i] == old(buf[i])
  {
    if value == 0 {
      buf[at] := ZERO;
      buf[at + 1] := NUL;
      return 1;
    }
    n := WriteLowFirst(value, buf, at, radix);
    Finish(buf, at, n, LowFirst(value, radix));
  }

  /** Terminate and reverse the n digits just written. */
  method Finish(buf: array<Byte>, at: int, n: int, ghost low: Bytes)
    requires 0 <= at && n == |low| && at + n < buf.Length && forall i :: at <= i < at + n ==> buf[i] == low[i - at]
    modifies buf
    ensures buf[at..at + n] == Reverse(low) && buf[at + n] == NUL
    ensures forall i :: 0 <= i < buf.Length && !(at <= i <= at + n) ==> buf[i] == old(buf[i])
  {
    buf[at + n] := NUL;
    ghost var before := buf[..];
    StrRev(buf, at, n);
    ReversedSlice(low, before, buf[..], at);
  }

  lemma ReversedSlice(low: Bytes, before: Bytes, after: Bytes, at: int)
    requires 0 <= at && at + |low| <= |before| == |after|
    requires forall i :: at <= i < at + |low| ==> before[i] == low[i - at]
    requires forall i :: at <= i < at + |low| ==> after[i] == before[2 * at + |low| - 1 - i]
    ensures after[at..at + |low|] == Reverse(low)
  {
    forall j | 0 <= j < |low| ensures after[at..at + |low|][j] == Reverse(low)[j] {
      assert after[at + j] == before[2 * at + |low| - 1 - (at + j)];
    }
  }

  lemma {:induction false} ParsePadded(k: nat, s: Bytes, radix: int)
    ensures Parse(seq(k, _ => ZERO) + s, radix) == Parse(s, radix)
    decreases k + |s|
  {
    var zeros: Bytes := seq(k, _ => ZERO);
    var t := zeros + s;
    if s != [] {
      assert t[..|t| - 1] == zeros + s[..|s| - 1];
      ParsePadded(k, s[..|s| - 1], radix);
    } else if k > 0 {
      var fewer: Bytes := seq(k - 1, _ => ZERO);
      assert t[..|t| - 1] == fewer + [];
      ParsePadded(k - 1, [], radix);
    }
  }

  /** A 32-bit value has at most eight hexadecimal digits. */
  lemma EightDigits(value: Word)
    ensures 1 <= |Printed(value, 16)| <= 8
  {
    assert Power(16, 4) == 0x1_0000;
    assert Power(16, 8) == 0x1_0000_0000;
    FewDigits(value, 16, 8);
  }

  /** Zeros in front of the string at 8, so that eight characters start at `start`. */
  method PadFront(convBuf: array<Byte>, start: int, ghost s: Bytes) returns (out: Bytes)
    requires convBuf.Length == 64 && start == |s| <= 8 && convBuf[8..8 + start] == s
    modifies convBuf
    ensures out == seq(8 - start, _ => ZERO) + s
  {
    var i := start;
    while i < 8
      invariant start <= i <= 8
      invariant convBuf[8..8 + start] == s
      invariant forall k :: start <= k < i ==> convBuf[k] == ZERO
    {
      convBuf[i] := ZERO;
      i := i + 1;
    }
    out := convBuf[start..8 + start];
    assert out[8 - start..] == convBuf[8..8 + start];
  }

  /** The %#x branch of printf: always eight digits of the same value. */
  method PaddedHex(value: Word) returns (out: Bytes)
    ensures |out| == 8 && Parse(out, 16) == value
  {
    EightDigits(value);
    var convBuf := new Byte[64];
    var start := Itoa(value, convBuf, 8, 16);
    out := PadFront(convBuf, start, Printed(value, 16));
    ParsePadded(8 - start, Printed(value, 16), 16);
    RoundTrip(value, 16);
  }
}
