/** The read-only file system image of fileSystem.c, byte for byte. */
module FileSystem {
  import opened Words

  const BLOCK := 4096
  const DENTRY := 64
  const NAME := 32
  const INODE_BLOCKS := 1023
  const MODULUS := 0x1_0000_0000

  /** A little-endian 32-bit field. */
  function Field(img: Bytes, a: int): (r: int)
    requires 0 <= a && a + 4 <= |img|
    ensures 0 <= r < MODULUS
  {
    img[a] as int + 0x100 * img[a + 1] as int + 0x1_0000 * img[a + 2] as int + 0x100_0000 * img[a + 3] as int
  }

  function Dentries(img: Bytes): int requires |img| >= BLOCK { Field(img, 0) }

  function Inodes(img: Bytes): int requires |img| >= BLOCK { Field(img, 4) }

  function Blocks(img: Bytes): int requires |img| >= BLOCK { Field(img, 8) }

  function DentryAt(i: int): int { DENTRY * (i + 1) }

  function InodeAt(i: int): int { BLOCK * (i + 1) }

  function BlockAt(img: Bytes, b: int): int requires |img| >= BLOCK { BLOCK * (Inodes(img) + 1) + BLOCK * b }

  /** Every structure the header announces is inside the image. */
  predicate Sized(img: Bytes) {
    && |img| >= BLOCK
    && Dentries(img) < BLOCK / DENTRY
    && |img| >= BLOCK * (1 + Inodes(img) + Blocks(img))
  }

  function FileType(img: Bytes, i: int): int
    requires Sized(img) && 0 <= i < Dentries(img)
  {
    Field(img, DentryAt(i) + NAME)
  }

  function InodeOf(img: Bytes, i: int): int
    requires Sized(img) && 0 <= i < Dentries(img)
  {
    Field(img, DentryAt(i) + NAME + 4)
  }

  function Length(img: Bytes, ino: int): int
    requires Sized(img) && 0 <= ino < Inodes(img)
  {
    Field(img, InodeAt(ino))
  }

  function BlockOf(img: Bytes, ino: int, k: int): int
    requires Sized(img) && 0 <= ino < Inodes(img) && 0 <= k < INODE_BLOCKS
  {
    Field(img, InodeAt(ino) + 4 + 4 * k)
  }

  /** A regular inode: at most 1023 blocks, each of its used blocks in the image. */
  predicate GoodInode(img: Bytes, ino: int)
    requires Sized(img) && 0 <= ino < Inodes(img)
  {
    && Length(img, ino) <= INODE_BLOCKS * BLOCK
    && forall k :: 0 <= k < INODE_BLOCKS && k * BLOCK < Length(img, ino) ==> BlockOf(img, ino, k) < Blocks(img)
  }

  predicate GoodInodes(img: Bytes) {
    && Sized(img)
    && forall ino :: 0 <= ino < Inodes(img) ==> GoodInode(img, ino)
  }

  predicate Typed(img: Bytes) {
    && GoodInodes(img)
    && (forall i :: 0 <= i < Dentries(img) ==> FileType(img, i) <= 2)
  }

  predicate WellFormed(img: Bytes) {
    && Typed(img)
    && (forall i :: 0 <= i < Dentries(img) ==> InodeOf(img, i) < Inodes(img))
  }

  /** Byte k of a file, wherever its block lies. */
  function FileByte(img: Bytes, ino: int, k: int): Byte
    requires GoodInodes(img) && 0 <= ino < Inodes(img) && 0 <= k < Length(img, ino)
  {
    assert GoodInode(img, ino);
    assert k / BLOCK * BLOCK <= k;
    img[BlockAt(img, BlockOf(img, ino, k / BLOCK)) + k % BLOCK]
  }

  /** The file as one flat sequence. */
  function Flat(img: Bytes, ino: int): (r: Bytes)
    requires GoodInodes(img) && 0 <= ino < Inodes(img)
    ensures |r| == Length(img, ino)
  {
    seq(Length(img, ino), k requires 0 <= k < Length(img, ino) => FileByte(img, ino, k))
  }

  function Min(a: int, b: int): int { if a <= b then a else b }

  /** What a read at `offset` for `length` bytes should deliver. */
  function Slice(file: Bytes, offset: int, length: int): Bytes
    requires 0 <= offset && 0 <= length
  {
    file[Min(offset, |file|)..Min(offset + length, |file|)]
  }

  /** The source's remaining_length: 32-bit sums and a signed result. */
  function Remaining(size: int, offset: Word, length: Word): int {
    Signed(if (offset + length) % MODULUS > size then size - offset else length)
  }

  /** The arithmetic the block loop relies on, for a well-formed inode: a positive remainder at an offset inside
      the file is the rest of the request, and one past the end belongs to an offset beyond 1023 blocks. */
  lemma RemainingIsRest(size: int, offset: Word, length: Word)
    requires 0 <= size <= INODE_BLOCKS * BLOCK && Remaining(size, offset, length) > 0
    ensures offset < size ==> Remaining(size, offset, length) == Min(length, size - offset)
    ensures offset >= size ==> offset / BLOCK >= INODE_BLOCKS
  {
    if offset < size {
      assert Signed(size - offset) == size - offset;
    }
  }

  /** Bad: inode number out of range. Stray: the block loop indexes past the inode. */
  datatype ReadResult = Bad | Stray | Data(bytes: Bytes)

  /** What read_data does: its early exits, the loop guard on the byte length, and the bytes the loop copies. */
  function ReadFile(img: Bytes, ino: Word, offset: Word, length: Word): ReadResult
    requires GoodInodes(img)
  {
    if ino >= Inodes(img) then Bad
    else
      assert GoodInode(img, ino);
      var size, rest := Length(img, ino), Remaining(Length(img, ino), offset, length);
      if rest <= 0 || offset / BLOCK >= size then Data([])
      else if offset / BLOCK >= INODE_BLOCKS then Stray
      else
        RemainingIsRest(size, offset, length);
        Data(Flat(img, ino)[offset..offset + rest])
  }

  /** The sum wraps around onto a value inside the file: nothing is read although bytes remain. */
  predicate Wraps(size: int, offset: Word, length: Word) {
    offset < size && offset + length >= MODULUS && offset + length - MODULUS <= size
  }

  /** The offset is so far past the end that the signed remainder is positive, on a file long enough for the
      loop guard to let the block index through. */
  predicate TooFar(size: int, offset: Word, length: Word) {
    && offset >= size && offset / BLOCK < size
    && if (offset + length) % MODULUS > size then offset - size > 0x8000_0000 else 0 < length < 0x8000_0000
  }

  /** When the remainder is positive, in terms of the arguments. */
  lemma RemainingSign(size: int, offset: Word, length: Word)
    requires 0 <= size <= INODE_BLOCKS * BLOCK
    ensures offset < size ==> (Remaining(size, offset, length) > 0 <==> length > 0 && !Wraps(size, offset, length))
    ensures offset >= size && offset / BLOCK < size ==>
              (Remaining(size, offset, length) > 0 <==> TooFar(size, offset, length))
  {
  }

  /** read_data delivers the slice of the flat file exactly when the 32-bit arithmetic neither wraps into the
      file nor turns positive past its end. */
  lemma ReadsSliceIff(img: Bytes, ino: Word, offset: Word, length: Word)
    requires GoodInodes(img) && ino < Inodes(img)
    ensures ReadFile(img, ino, offset, length) == Data(Slice(Flat(img, ino), offset, length)) <==>
            !Wraps(Length(img, ino), offset, length) && !TooFar(Length(img, ino), offset, length)
  {
    assert GoodInode(img, ino);
    var size, file := Length(img, ino), Flat(img, ino);
    RemainingSign(size, offset, length);
    if Remaining(size, offset, length) > 0 { RemainingIsRest(size, offset, length); }
    if offset >= size {
      assert Slice(file, offset, length) == [];
    } else {
      assert |Slice(file, offset, length)| == Min(length, size - offset);
      assert offset / BLOCK < size && offset / BLOCK < INODE_BLOCKS;
    }
  }

  /** Both failures happen: a two-block file read from its second block for 2^32 - 4096 bytes gives nothing, and
      a 1 MB file read for one byte from just beyond 2^31 past its end indexes past its inode. */
  lemma ReadFailures(img: Bytes, ino: Word)
    requires GoodInodes(img) && ino < Inodes(img)
    ensures Length(img, ino) == 8192 ==>
              && ReadFile(img, ino, 4096, 0xFFFF_F000) == Data([])
              && |Slice(Flat(img, ino), 4096, 0xFFFF_F000)| == 4096
    ensures Length(img, ino) == 0x10_0000 ==>
              ReadFile(img, ino, 0x8010_0001, 1).Stray? && Slice(Flat(img, ino), 0x8010_0001, 1) == []
  {
    assert GoodInode(img, ino);
  }

  /** Offsets inside the file and lengths below 2^31 are always sane. */
  lemma SaneReads(img: Bytes, ino: Word, offset: Word, length: Word)
    requires GoodInodes(img) && ino < Inodes(img) && offset <= Length(img, ino) && length < 0x8000_0000
    ensures ReadFile(img, ino, offset, length) == Data(Slice(Flat(img, ino), offset, length))
  {
    assert GoodInode(img, ino);
    assert offset + length < MODULUS;
    ReadsSliceIff(img, ino, offset, length);
  }

  /** Byte k of a buffer b0 overwritten at `at` by n bytes of src from `from`. */
  ghost function Laid(b0: Bytes, at: int, src: Bytes, from: int, n: int, k: int): Byte
    requires 0 <= from && 0 <= n && from + n <= |src| && 0 <= k < |b0|
  {
    if at <= k < at + n then src[from + (k - at)] else b0[k]
  }

  ghost predicate LaidOver(b: Bytes, b0: Bytes, at: int, src: Bytes, from: int, n: int)
    requires 0 <= from && 0 <= n && from + n <= |src|
  {
    |b| == |b0| && forall k :: 0 <= k < |b0| ==> b[k] == Laid(b0, at, src, from, n, k)
  }

  /** memcpy out of the image. */
  method CopyOut(img: Bytes, a: int, buf: array<Byte>, at: int, n: int)
    requires 0 <= a && 0 <= n && a + n <= |img| && 0 <= at && at + n <= buf.Length
    modifies buf
    ensures LaidOver(buf[..], old(buf[..]), at, img, a, n)
  {
    var i := 0;
    while i < n
      invariant 0 <= i <= n
      invariant LaidOver(buf[..], old(buf[..]), at, img, a, i)
    {
      buf[at + i] := img[a + i];
      i := i + 1;
    }
  }

  /** Where byte `pos` of a file lies in the image. */
  function AddressOf(img: Bytes, ino: int, pos: int): int
    requires GoodInodes(img) && 0 <= ino < Inodes(img) && 0 <= pos < Length(img, ino)
  {
    assert GoodInode(img, ino);
    BlockAt(img, BlockOf(img, ino, pos / BLOCK)) + pos % BLOCK
  }

  /** Within one block the image holds the file's bytes in order. */
  lemma SameBlock(img: Bytes, ino: int, pos: int, j: int)
    requires GoodInodes(img) && 0 <= ino < Inodes(img)
    requires 0 <= pos && 0 <= j && pos + j < Length(img, ino) && pos % BLOCK + j < BLOCK
    ensures AddressOf(img, ino, pos) + j < |img|
    ensures img[AddressOf(img, ino, pos) + j] == Flat(img, ino)[pos + j]
  {
    assert GoodInode(img, ino);
    assert (pos + j) / BLOCK == pos / BLOCK && (pos + j) % BLOCK == pos % BLOCK + j;
    assert Flat(img, ino)[pos + j] == FileByte(img, ino, pos + j);
  }

  lemma BlockIsFile(img: Bytes, ino: int, pos: int, n: int, b: Bytes, b0: Bytes, at: int)
    requires GoodInodes(img) && 0 <= ino < Inodes(img)
    requires 0 <= pos && 0 < n && pos + n <= Length(img, ino) && pos % BLOCK + n <= BLOCK
    requires AddressOf(img, ino, pos) + n <= |img| && LaidOver(b, b0, at, img, AddressOf(img, ino, pos), n)
    ensures LaidOver(b, b0, at, Flat(img, ino), pos, n)
  {
    forall k | 0 <= k < |b0| ensures b[k] == Laid(b0, at, Flat(img, ino), pos, n, k) {
      if at <= k < at + n { SameBlock(img, ino, pos, k - at); }
    }
  }

  /** In place of a return value: the block loop left the inode's block list. */
  const STRAY := -2

  /** read_data. The buffer is the memory mapped from the destination on: a copy that runs off its end fills it and
      faults. */
  method ReadData(img: Bytes, ino: Word, offset: Word, length: Word, buf: array<Byte>) returns (count: int)
    requires GoodInodes(img)
    modifies buf
    ensures match ReadFile(img, ino, offset, length)
            case Bad => count == -1 && buf[..] == old(buf[..])
            case Stray => count == STRAY && buf[..] == old(buf[..])
            case Data(bytes) =>
              if |bytes| <= buf.Length then count == |bytes| && buf[..] == bytes + old(buf[count..])
              else count == FAULT && buf[..] == bytes[..buf.Length]
  {
    if ino >= Inodes(img) { return -1; }
    var remaining := Remaining(Length(img, ino), offset, length);
    if remaining <= 0 { return 0; }
    assert GoodInode(img, ino);
    RemainingIsRest(Length(img, ino), offset, length);
    var first := offset / BLOCK;
    if first >= Length(img, ino) { return 0; }   // the loop guard fails at once
    if first >= INODE_BLOCKS { return STRAY; }   // the first access is past the inode's block list
    count := CopyBlocks(img, ino, offset, remaining, buf);
    if count < remaining { return FAULT; }
  }

  /** Where the block loop stands: i is the block of the next byte, reached at its start after the first. */
  predicate AtBlock(offset: int, total: int, i: int) {
    i == (offset + total) / BLOCK && (total > 0 ==> (offset + total) % BLOCK == 0 && i > offset / BLOCK)
  }

  /** One iteration's start and length, by the source's two branches. */
  function StartIn(offset: int, i: int): int { if i == offset / BLOCK then offset % BLOCK else 0 }

  function PieceSize(start: int, remaining: int): int {
    if remaining >= BLOCK - start then BLOCK - start else remaining
  }

  lemma NextPiece(offset: int, total: int, remaining: int, i: int)
    requires 0 <= offset && 0 <= total && 0 < remaining && AtBlock(offset, total, i)
    ensures 0 <= i < offset + total + remaining
    ensures var n := PieceSize(StartIn(offset, i), remaining);
            && StartIn(offset, i) == (offset + total) % BLOCK
            && 0 < n <= remaining && (offset + total) % BLOCK + n <= BLOCK
            && (n < remaining ==> AtBlock(offset, total + n, i + 1) && i + 1 < offset + total + remaining)
  {
  }

  /** The bytes of two consecutive pieces are the bytes of one. */
  lemma Extended(file: Bytes, b0: Bytes, b1: Bytes, b2: Bytes, offset: int, total: int, n: int)
    requires 0 <= offset && 0 <= total && 0 <= n && offset + total + n <= |file| && total + n <= |b0|
    requires LaidOver(b1, b0, 0, file, offset, total) && LaidOver(b2, b1, total, file, offset + total, n)
    ensures LaidOver(b2, b0, 0, file, offset, total + n)
  {
  }

  /** One iteration of the block loop: the first block may start in its middle, the last may end early, and the copy
      stops where the buffer does. */
  method TakePiece(img: Bytes, ino: int, offset: int, total: int, rest: int, i: int, buf: array<Byte>, ghost b0: Bytes)
    returns (n: int)
    requires GoodInodes(img) && 0 <= ino < Inodes(img)
    requires 0 <= offset && 0 <= total < rest && offset + rest <= Length(img, ino)
    requires total < buf.Length == |b0|
    requires AtBlock(offset, total, i) && LaidOver(buf[..], b0, 0, Flat(img, ino), offset, total)
    modifies buf
    ensures 0 < n && total + n <= rest && total + n <= buf.Length
    ensures total + n < Min(rest, buf.Length) ==> AtBlock(offset, total + n, i + 1) && i + 1 < offset + rest
    ensures LaidOver(buf[..], b0, 0, Flat(img, ino), offset, total + n)
  {
    NextPiece(offset, total, rest - total, i);
    n := Min(PieceSize(StartIn(offset, i), rest - total), buf.Length - total);
    ghost var b1 := buf[..];
    CopyOneBlock(img, ino, i, StartIn(offset, i), n, buf, total, offset + total);
    Extended(Flat(img, ino), b0, b1, buf[..], offset, total, n);
  }

  /** The block loop of read_data. Its guard compares the block index with the length in bytes; it never
      ends the copy early because a block index below the end is below the length as well. */
  method CopyBlocks(img: Bytes, ino: int, offset: int, rest: int, buf: array<Byte>) returns (total: int)
    requires GoodInodes(img) && 0 <= ino < Inodes(img)
    requires 0 <= offset && 0 < rest && offset + rest <= Length(img, ino)
    modifies buf
    ensures total == Min(rest, buf.Length) && LaidOver(buf[..], old(buf[..]), 0, Flat(img, ino), offset, total)
  {
    ghost var b0, file := buf[..], Flat(img, ino);
    total := 0;
    var i, size := offset / BLOCK, Length(img, ino);
    NextPiece(offset, 0, rest, i);
    while i < size && total < rest
      invariant 0 <= total <= Min(rest, buf.Length)
      invariant total < Min(rest, buf.Length) ==> AtBlock(offset, total, i) && i < size
      invariant LaidOver(buf[..], b0, 0, file, offset, total)
      decreases rest - total
    {
      if total == buf.Length { break; }     // the copy has run off the end
      var n := TakePiece(img, ino, offset, total, rest, i, buf, b0);
      total := total + n;
      i := i + 1;
    }
  }

  method CopyOneBlock(img: Bytes, ino: int, i: int, start: int, n: int, buf: array<Byte>, at: int, ghost pos: int)
    requires GoodInodes(img) && 0 <= ino < Inodes(img) && i == pos / BLOCK && start == pos % BLOCK
    requires 0 <= pos && 0 < n && pos + n <= Length(img, ino) && pos % BLOCK + n <= BLOCK
    requires 0 <= at && at + n <= buf.Length
    modifies buf
    ensures LaidOver(buf[..], old(buf[..]), at, Flat(img, ino), pos, n)
  {
    assert GoodInode(img, ino);
    SameBlock(img, ino, pos, n - 1);
    CopyOut(img, BlockAt(img, BlockOf(img, ino, i)) + start, buf, at, n);
    BlockIsFile(img, ino, pos, n, buf[..], old(buf[..]), at);
  }
}
