/** Machine integers that several modules share. */
module Words {
  type Byte = b: int | 0 <= b < 0x100

  type Word = w: int | 0 <= w < 0x1_0000_0000

  type Bytes = seq<Byte>

  datatype Option<T> = None | Some(value: T)

  const TERMINALS := 3

  const NUL: Byte := 0
  const NEWLINE: Byte := 10
  const RETURN: Byte := 13
  const SPACE: Byte := 32

  predicate Distinct(s: seq<int>) { forall i, j :: 0 <= i < j < |s| ==> s[i] != s[j] }

  /** In place of a return value: a page fault in the kernel stops the machine. */
  const FAULT := -3

  /** A 32-bit pattern read as a signed integer. */
  function Signed(w: int): int {
    var bits := w % 0x1_0000_0000;
    if bits < 0x8000_0000 then bits else bits - 0x1_0000_0000
  }
}
