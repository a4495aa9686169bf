/** An image builder, by plain concatenation, and what the file system code makes of its images. */
module Packing {
  import opened Words
  import opened FileSystem
  import opened Directory

  /** A directory entry of kind 0, 1 or 2 and the bytes of its inode. */
  datatype File = File(name: Bytes, kind: int, bytes: Bytes)

  function Join(parts: seq<Bytes>): Bytes { if parts == [] then [] else parts[0] + Join(parts[1..]) }

  /** The four bytes of a number, lowest first. */
  function LittleEndian(w: Word): (r: Bytes)
    ensures |r| == 4
  {
    [w % 0x100, w / 0x100 % 0x100, w / 0x100 / 0x100 % 0x100, w / 0x100 / 0x100 / 0x100]
  }

  function Zeros(n: nat): (r: Bytes)
    ensures |r| == n
  {
    seq(n, _ => NUL)
  }

  function Padded(bytes: Bytes, n: nat): (r: Bytes)
    requires |bytes| <= n
    ensures |r| == n
  {
    bytes + Zeros(n - |bytes|)
  }

  /** How many data blocks a file takes. */
  function BlockCount(f: File): nat { (|f.bytes| + 4095) / 4096 }

  function Total(files: seq<File>): nat { if files == [] then 0 else BlockCount(files[0]) + Total(files[1..]) }

  /** A directory's worth of files with short C names and at most 1023 blocks each. */
  predicate Packable(files: seq<File>) {
    && |files| <= 63
    && forall i :: 0 <= i < |files| ==>
         && |files[i].name| <= 32 && NUL !in files[i].name
         && 0 <= files[i].kind <= 2 && |files[i].bytes| <= 1023 * 4096
  }

  /** The 64 records of 64 bytes in the boot block: the three counts, then one entry per file. */
  function BootRecord(files: seq<File>): (r: Bytes)
    requires Packable(files)
    ensures |r| == 64
  {
    TotalFits(files);
    Padded(LittleEndian(|files|) + LittleEndian(|files|) + LittleEndian(Total(files)), 64)
  }

  function EntryRecord(f: File, ino: Word): (r: Bytes)
    requires |f.name| <= 32 && 0 <= f.kind <= 2
    ensures |r| == 64
  {
    Padded(f.name, 32) + LittleEndian(f.kind) + LittleEndian(ino) + Zeros(24)
  }

  function BootRecords(files: seq<File>): (r: seq<Bytes>)
    requires Packable(files)
    ensures |r| == 64 && forall j :: 0 <= j < 64 ==> |r[j]| == 64
  {
    [BootRecord(files)] + seq(|files|, i requires 0 <= i < |files| => EntryRecord(files[i], i)) +
    seq(63 - |files|, _ => Zeros(64))
  }

  /** The 1024 fields of an inode: the length, then the numbers of its blocks, which are consecutive. */
  function InodeField(f: File, first: nat, k: int): Word
    requires first + 1023 < 0x1_0000_0000 && |f.bytes| <= 1023 * 4096 && 0 <= k < 1024
  {
    if k == 0 then |f.bytes| else if k <= BlockCount(f) then first + k - 1 else 0
  }

  function InodeBlock(f: File, first: nat): Bytes
    requires first + 1023 < 0x1_0000_0000 && |f.bytes| <= 1023 * 4096
  {
    Join(seq(1024, k requires 0 <= k < 1024 => LittleEndian(InodeField(f, first, k))))
  }

  /** The k-th 4 KB of a file, the last one filled up with zeros. */
  function DataBlock(f: File, k: nat): (r: Bytes)
    requires k < BlockCount(f)
    ensures |r| == 4096
  {
    Padded(f.bytes[4096 * k..if 4096 * (k + 1) <= |f.bytes| then 4096 * (k + 1) else |f.bytes|], 4096)
  }

  function FileBlocks(f: File): (r: seq<Bytes>)
    ensures |r| == BlockCount(f)
  {
    seq(BlockCount(f), k requires 0 <= k < BlockCount(f) => DataBlock(f, k))
  }

  function DataBlocks(files: seq<File>): (r: seq<Bytes>)
    ensures |r| == Total(files)
  {
    if files == [] then [] else FileBlocks(files[0]) + DataBlocks(files[1..])
  }

  /** Boot block, one inode block per file, then the files' data, one after the other. */
  function PackedBlocks(files: seq<File>): (r: seq<Bytes>)
    requires Packable(files)
    ensures |r| == 1 + |files| + Total(files)
  {
    [Join(BootRecords(files))] + seq(|files|, i requires 0 <= i < |files| => InodeOfFile(files, i)) + DataBlocks(files)
  }

  function InodeOfFile(files: seq<File>, i: int): Bytes
    requires Packable(files) && 0 <= i < |files|
  {
    PrefixFits(files, i);
    InodeBlock(files[i], Total(files[..i]))
  }

  function Pack(files: seq<File>): Bytes
    requires Packable(files)
  {
    Join(PackedBlocks(files))
  }

  lemma {:induction false} TotalAtMost(files: seq<File>, n: nat)
    requires |files| <= n && forall i :: 0 <= i < |files| ==> |files[i].bytes| <= 1023 * 4096
    ensures Total(files) <= 1023 * n
    decreases n
  {
    if files != [] { TotalAtMost(files[1..], n - 1); }
  }

  lemma TotalFits(files: seq<File>)
    requires Packable(files)
    ensures Total(files) <= 1023 * 63
  {
    TotalAtMost(files, 63);
  }

  lemma PrefixFits(files: seq<File>, i: int)
    requires Packable(files) && 0 <= i <= |files|
    ensures Total(files[..i]) <= 1023 * 63
  {
    TotalAtMost(files[..i], 63);
  }

  /** Parts of equal size lie at multiples of it. */
  lemma {:induction false} JoinAt(parts: seq<Bytes>, size: nat, i: nat, k: nat)
    requires forall j :: 0 <= j < |parts| ==> |parts[j]| == size
    requires i < |parts| && k < size
    ensures |Join(parts)| == size * |parts| && 0 <= size * i + k < size * |parts|
    ensures Join(parts)[size * i + k] == parts[i][k]
    decreases |parts|
  {
    JoinSize(parts, size);
    assert size * |parts| == size + size * (|parts| - 1);
    if i > 0 {
      assert size * i == size + size * (i - 1);
      JoinAt(parts[1..], size, i - 1, k);
    } else {
      assert size * (|parts| - 1) >= 0;
    }
  }

  lemma {:induction false} JoinSize(parts: seq<Bytes>, size: nat)
    requires forall j :: 0 <= j < |parts| ==> |parts[j]| == size
    ensures |Join(parts)| == size * |parts|
  {
    if parts != [] {
      JoinSize(parts[1..], size);
      assert size * |parts| == size + size * (|parts| - 1);
    }
  }

  /** A field whose four bytes are those of a number is that number. */
  lemma FieldIs(img: Bytes, a: int, w: Word)
    requires 0 <= a && a + 4 <= |img| && img[a..a + 4] == LittleEndian(w)
    ensures Field(img, a) == w
  {
    var b := img[a..a + 4];
    assert img[a] == b[0] && img[a + 1] == b[1] && img[a + 2] == b[2] && img[a + 3] == b[3];
    var p, q := w / 0x100, w / 0x100 / 0x100;
    assert w == 0x100 * p + w % 0x100 && p == 0x100 * q + p % 0x100 && q == 0x100 * (q / 0x100) + q % 0x100;
  }

  /** A part is a slice of the whole. */
  lemma PartOf(parts: seq<Bytes>, size: nat, i: nat)
    requires i < |parts| && forall j :: 0 <= j < |parts| ==> |parts[j]| == size
    ensures |Join(parts)| == size * |parts| && 0 <= size * i <= size * i + size <= |Join(parts)|
    ensures Join(parts)[size * i..size * i + size] == parts[i]
  {
    JoinSize(parts, size);
    InBounds(size, i, |parts|);
    var all, at := Join(parts), size * i;
    forall k | 0 <= k < size ensures all[at..at + size][k] == parts[i][k] { JoinAt(parts, size, i, k); }
  }

  lemma InBounds(size: nat, i: nat, n: nat)
    requires i < n
    ensures 0 <= size * i <= size * i + size <= size * n
  {
    assert size * (i + 1) == size * i + size;
    TimesMono(size, i + 1, n);
    TimesMono(size, 0, i);
  }

  lemma {:induction false} TimesMono(size: nat, a: nat, b: nat)
    requires a <= b
    ensures size * a <= size * b
    decreases b - a
  {
    if a < b {
      TimesMono(size, a, b - 1);
      assert size * b == size * (b - 1) + size;
    }
  }

  /** A slice of a slice. */
  lemma Within(img: Bytes, at: int, n: int, a: int, b: int)
    requires 0 <= at && 0 <= a <= b <= n && at + n <= |img|
    ensures img[at..at + n][a..b] == img[at + a..at + b]
  {
    var whole := img[at..at + n];
    var left, right := whole[a..b], img[at + a..at + b];
    forall k | 0 <= k < b - a ensures left[k] == right[k] { assert left[k] == whole[a + k] == img[at + (a + k)]; }
    assert left == right;
  }

  /** Every block of an image has 4096 bytes. */
  lemma BlocksSized(files: seq<File>)
    requires Packable(files)
    ensures forall j :: 0 <= j < |PackedBlocks(files)| ==> |PackedBlocks(files)[j]| == 4096
  {
    var blocks := PackedBlocks(files);
    JoinSize(BootRecords(files), 64);
    DataSized(files);
    forall j | 0 <= j < |blocks| ensures |blocks[j]| == 4096 {
      if 1 <= j <= |files| {
        PrefixFits(files, j - 1);
        InodeSized(files[j - 1], Total(files[..j - 1]));
      }
    }
  }

  lemma InodeSized(f: File, first: nat)
    requires first + 1023 < 0x1_0000_0000 && |f.bytes| <= 1023 * 4096
    ensures |InodeBlock(f, first)| == 4096
  {
    JoinSize(seq(1024, k requires 0 <= k < 1024 => LittleEndian(InodeField(f, first, k))), 4);
  }

  lemma {:induction false} DataSized(files: seq<File>)
    ensures forall j :: 0 <= j < |DataBlocks(files)| ==> |DataBlocks(files)[j]| == 4096
  {
    if files != [] { DataSized(files[1..]); }
  }

  /** Block j of an image. */
  lemma BlockIs(files: seq<File>, j: nat)
    requires Packable(files) && j < |PackedBlocks(files)|
    ensures |Pack(files)| == 4096 * (1 + |files| + Total(files)) && 4096 * j + 4096 <= |Pack(files)|
    ensures Pack(files)[4096 * j..4096 * j + 4096] == PackedBlocks(files)[j]
  {
    BlocksSized(files);
    PartOf(PackedBlocks(files), 4096, j);
  }

  /** Record r of the boot block. */
  lemma RecordIs(files: seq<File>, r: nat)
    requires Packable(files) && r < 64
    ensures |Pack(files)| >= 4096 && Pack(files)[64 * r..64 * r + 64] == BootRecords(files)[r]
  {
    BlockIs(files, 0);
    PartOf(BootRecords(files), 64, r);
    var img, boot := Pack(files), Join(BootRecords(files));
    assert img[..4096] == boot;
    assert img[64 * r..64 * r + 64] == img[..4096][64 * r..64 * r + 64];
  }

  lemma BootFields(files: seq<File>)
    requires Packable(files) && Total(files) <= 1023 * 63
    ensures var r := BootRecord(files);
            r[0..4] == r[4..8] == LittleEndian(|files|) && r[8..12] == LittleEndian(Total(files))
  {
    hide LittleEndian, Zeros;
    var n, total := LittleEndian(|files|), LittleEndian(Total(files));
    ThreeWords(n, n, total, Zeros(52));
  }

  lemma ThreeWords(a: Bytes, b: Bytes, c: Bytes, rest: Bytes)
    requires |a| == |b| == |c| == 4
    ensures (a + b + c + rest)[0..4] == a && (a + b + c + rest)[4..8] == b && (a + b + c + rest)[8..12] == c
  {
  }

  lemma HeaderIs(files: seq<File>)
    requires Packable(files)
    ensures var img := Pack(files);
            && |img| == 4096 * (1 + |files| + Total(files))
            && Dentries(img) == Inodes(img) == |files| && Blocks(img) == Total(files) && Sized(img)
  {
    hide Field, Join, LittleEndian, Pack, BootRecord;
    var img := Pack(files);
    BlockIs(files, 0);
    RecordIs(files, 0);
    TotalFits(files);
    BootFields(files);
    assert img[0..64] == BootRecord(files);
    Within(img, 0, 64, 0, 4);
    Within(img, 0, 64, 4, 8);
    Within(img, 0, 64, 8, 12);
    FieldIs(img, 0, |files|);
    FieldIs(img, 4, |files|);
    FieldIs(img, 8, Total(files));
  }

  lemma EntryFields(files: seq<File>, i: nat)
    requires Packable(files) && i < |files| && Sized(Pack(files)) && Dentries(Pack(files)) == |files|
    ensures FileType(Pack(files), i) == files[i].kind && InodeOf(Pack(files), i) == i
  {
    hide Field, Join, LittleEndian, Pack;
    var img, at := Pack(files), 64 * (i + 1);
    RecordIs(files, i + 1);
    assert img[at..at + 64] == EntryRecord(files[i], i);
    Within(img, at, 64, 32, 36);
    Within(img, at, 64, 36, 40);
    FieldIs(img, at + 32, files[i].kind);
    FieldIs(img, at + 36, i);
  }

  lemma EntryName(files: seq<File>, i: nat)
    requires Packable(files) && i < |files| && Sized(Pack(files)) && Dentries(Pack(files)) == |files|
    ensures Name(Pack(files), i) == files[i].name
  {
    hide Field, Join, LittleEndian, Pack;
    var img, at, name := Pack(files), 64 * (i + 1), files[i].name;
    RecordIs(files, i + 1);
    assert img[at..at + 64] == EntryRecord(files[i], i);
    Within(img, at, 64, 0, |name|);
    Within(img, at, 64, 0, 32);
    StartsWithName(img[at..at + 32], name);
    forall a | at <= a < at + |name| ensures img[a] != NUL { assert img[a] == img[at..at + 32][a - at]; }
    assert |name| < 32 ==> img[at + |name|] == img[at..at + 32][|name|];
    NameIs(img, i, |name|);
  }

  lemma StartsWithName(field: Bytes, name: Bytes)
    requires |name| <= 32 && NUL !in name && field == Padded(name, 32)
    ensures field[..|name|] == name && (forall k :: 0 <= k < |name| ==> field[k] != NUL)
    ensures |name| < 32 ==> field[|name|] == NUL
  {
    forall k | 0 <= k < |name| ensures field[k] != NUL { assert field[k] == name[k] && name[k] in name; }
  }

  /** The inode of file i: its length, and its blocks one after the other. */
  lemma InodeIs(files: seq<File>, i: nat)
    requires Packable(files) && i < |files| && Sized(Pack(files)) && Inodes(Pack(files)) == |files|
    ensures Length(Pack(files), i) == |files[i].bytes|
    ensures forall k :: 0 <= k < BlockCount(files[i]) ==> BlockOf(Pack(files), i, k) == Total(files[..i]) + k
  {
    hide Field, Join, LittleEndian, Pack;
    var img, f, first := Pack(files), files[i], Total(files[..i]);
    PrefixFits(files, i);
    InodeFieldIs(files, i, 0);
    forall k | 0 <= k < BlockCount(f) ensures BlockOf(img, i, k) == first + k { InodeFieldIs(files, i, k + 1); }
  }

  lemma InodeFieldIs(files: seq<File>, i: nat, k: nat)
    requires Packable(files) && i < |files| && k < 1024 && Total(files[..i]) + 1023 < 0x1_0000_0000
    ensures 4096 * (i + 1) + 4 * k + 4 <= |Pack(files)|
    ensures Field(Pack(files), 4096 * (i + 1) + 4 * k) == InodeField(files[i], Total(files[..i]), k)
  {
    hide Field, Join, LittleEndian, Pack;
    var img, f, first, at := Pack(files), files[i], Total(files[..i]), 4096 * (i + 1);
    var fields := seq(1024, k requires 0 <= k < 1024 => LittleEndian(InodeField(f, first, k)));
    BlockIs(files, i + 1);
    assert img[at..at + 4096] == InodeBlock(f, first);
    PartOf(fields, 4, k);
    assert InodeBlock(f, first)[4 * k..4 * k + 4] == fields[k];
    Within(img, at, 4096, 4 * k, 4 * k + 4);
    FieldIs(img, at + 4 * k, InodeField(f, first, k));
  }

  /** Where a file's data lies among all data blocks. */
  lemma {:induction false} DataIs(files: seq<File>, i: nat, k: nat)
    requires i < |files| && k < BlockCount(files[i])
    ensures Total(files[..i]) + k < Total(files)
    ensures DataBlocks(files)[Total(files[..i]) + k] == DataBlock(files[i], k)
    decreases |files|
  {
    if i == 0 {
      assert files[..0] == [];
      assert FileBlocks(files[0])[k] == DataBlock(files[0], k);
    } else {
      DataIs(files[1..], i - 1, k);
      assert files[1..][..i - 1] == files[..i][1..];
      assert files[..i][0] == files[0];
    }
  }

  /** Byte p of a packed file, where the inode and the data blocks put it. */
  lemma ByteIs(files: seq<File>, i: nat, p: nat)
    requires Packable(files) && i < |files| && p < |files[i].bytes|
    requires Sized(Pack(files)) && Inodes(Pack(files)) == |files|
    ensures var b := Total(files[..i]) + p / 4096;
            && 4096 * (1 + |files| + b) + p % 4096 < |Pack(files)|
            && Pack(files)[4096 * (1 + |files| + b) + p % 4096] == files[i].bytes[p]
  {
    hide Field, Join, Pack, PackedBlocks, BlockCount, DataBlock;
    var img, f, k, r := Pack(files), files[i], p / 4096, p % 4096;
    var j := 1 + |files| + Total(files[..i]) + k;
    DataByte(f, p);
    DataIs(files, i, k);
    DataFollows(files, Total(files[..i]) + k);
    BlockIs(files, j);
    assert img[4096 * j..4096 * j + 4096][r] == img[4096 * j + r];
  }

  lemma DataFollows(files: seq<File>, n: nat)
    requires Packable(files) && n < Total(files)
    ensures PackedBlocks(files)[1 + |files| + n] == DataBlocks(files)[n]
  {
  }

  lemma DataByte(f: File, p: nat)
    requires p < |f.bytes|
    ensures p / 4096 < BlockCount(f) && DataBlock(f, p / 4096)[p % 4096] == f.bytes[p]
  {
  }

  lemma PackedInode(files: seq<File>, i: nat)
    requires Packable(files) && i < |files|
    requires Sized(Pack(files)) && Inodes(Pack(files)) == |files| && Blocks(Pack(files)) == Total(files)
    ensures GoodInode(Pack(files), i) && Length(Pack(files), i) == |files[i].bytes|
  {
    hide Field, Join, Pack, LittleEndian;
    InodeIs(files, i);
    forall k | 0 <= k < INODE_BLOCKS && k * BLOCK < Length(Pack(files), i)
      ensures BlockOf(Pack(files), i, k) < Blocks(Pack(files))
    {
      DataIs(files, i, k);
    }
  }

  /** Main result: a packed image is well formed, lists the names in order, and holds every file's bytes. */
  lemma PackedIs(files: seq<File>)
    requires Packable(files)
    ensures var img := Pack(files);
            && WellFormed(img) && Dentries(img) == Inodes(img) == |files|
            && (forall i :: 0 <= i < |files| ==> Names(img)[i] == files[i].name)
            && (forall i :: 0 <= i < |files| ==> FileType(img, i) == files[i].kind && InodeOf(img, i) == i)
            && (forall i :: 0 <= i < |files| ==> Flat(img, i) == files[i].bytes)
  {
    hide Field, Join, Pack, LittleEndian;
    HeaderIs(files);
    forall i | 0 <= i < |files| ensures GoodInode(Pack(files), i) && Length(Pack(files), i) == |files[i].bytes| {
      PackedInode(files, i);
    }
    forall i | 0 <= i < |files|
      ensures FileType(Pack(files), i) == files[i].kind && InodeOf(Pack(files), i) == i
      ensures Names(Pack(files))[i] == files[i].name
    {
      EntryFields(files, i);
      EntryName(files, i);
    }
    forall i | 0 <= i < |files| ensures Flat(Pack(files), i) == files[i].bytes { PackedFlat(files, i); }
  }

  lemma PackedFlat(files: seq<File>, i: nat)
    requires Packable(files) && i < |files| && GoodInodes(Pack(files)) && Inodes(Pack(files)) == |files|
    requires Length(Pack(files), i) == |files[i].bytes|
    ensures Flat(Pack(files), i) == files[i].bytes
  {
    hide Field, Join, Pack, LittleEndian;
    var img, f := Pack(files), files[i];
    InodeIs(files, i);
    forall p | 0 <= p < |f.bytes| ensures Flat(img, i)[p] == f.bytes[p] {
      ByteIs(files, i, p);
      assert Flat(img, i)[p] == FileByte(img, i, p);
    }
  }

  /** So read_data on a packed image delivers the file's own bytes, and a lookup finds a file by its name. */
  lemma PackedReads(files: seq<File>, i: nat, offset: Word, length: Word)
    requires Packable(files) && i < |files| && offset <= |files[i].bytes| && length < 0x8000_0000
    ensures WellFormed(Pack(files))
    ensures var end := if offset + length <= |files[i].bytes| then offset + length else |files[i].bytes|;
            ReadFile(Pack(files), i, offset, length) == Data(files[i].bytes[offset..end])
    ensures (forall j :: 0 <= j < i ==> files[j].name != files[i].name) ==> FirstNamed(Pack(files), files[i].name) == i
  {
    hide Field, Join, Pack, LittleEndian;
    PackedIs(files);
    SaneReads(Pack(files), i, offset, length);
    LookupFindsOwn(Pack(files), i);
  }

  /** The same, in place. */
  method ReadPacked(files: seq<File>, i: nat, offset: Word, length: Word, buf: array<Byte>) returns (count: int)
    requires Packable(files) && i < |files| && offset <= |files[i].bytes| && length < 0x8000_0000
    requires buf.Length >= length
    modifies buf
    ensures var rest := |files[i].bytes| - offset;
            count == (if length <= rest then length else rest) && buf[..count] == files[i].bytes[offset..offset + count]
    ensures buf[count..] == old(buf[count..])
  {
    hide Field, Join, Pack, LittleEndian, ReadFile;
    PackedReads(files, i, offset, length);
    count := ReadData(Pack(files), i, offset, length, buf);
  }
}
