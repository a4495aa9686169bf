/** Small images at which the file system, or execute, does not keep its promise. */
module Images {
  import opened Words
  import opened FileSystem
  import opened Directory
  import opened Loader
  import opened Processes

  const NAMED_A: Bytes := [97]

  /** An image with the entry "a", of regular type and inode number 0, and no inode. */
  function Dangling(): (img: Bytes)
    ensures |img| == BLOCK
  {
    seq(BLOCK, a => if a == 0 then 1 else if a == DENTRY then 97 else if a == DENTRY + NAME then 2 else NUL)
  }

  /** An image with one file "a" of the given length: an executable whose block list names one block throughout. */
  function OneFile(length: Word): (img: Bytes)
    ensures |img| == 3 * BLOCK
  {
    seq(3 * BLOCK, a => OneFileByte(length, a))
  }

  function OneFileByte(length: Word, a: int): Byte {
    if a == 0 || a == 4 || a == 8 then 1
    else if a == DENTRY then 97
    else if a == DENTRY + NAME then 2
    else if a == BLOCK then length % 0x100
    else if a == BLOCK + 1 then length / 0x100 % 0x100
    else if a == BLOCK + 2 then length / 0x1_0000 % 0x100
    else if a == BLOCK + 3 then length / 0x100_0000
    else if 2 * BLOCK <= a < 2 * BLOCK + 4 then MAGIC[a - 2 * BLOCK]
    else NUL
  }

  /** The one name of an image that starts like these two. */
  lemma NamedA(img: Bytes)
    requires Sized(img) && Dentries(img) == 1 && img[DENTRY] == 97 && img[DENTRY + 1] == NUL
    ensures FirstNamed(img, NAMED_A) == 0 && EntryOf(img, NAMED_A) == 0
  {
    NameIs(img, 0, 1);
    assert Name(img, 0) == NAMED_A;
    assert Names(img)[0] == NAMED_A;
    assert FirstSpace(NAMED_A) == 1;
    assert FileName(NAMED_A) == NAMED_A;
  }

  /** One field of the image, byte by byte. */
  lemma FieldIs(length: Word, a: int)
    requires 0 <= a && a + 4 <= 3 * BLOCK
    ensures Field(OneFile(length), a) ==
            OneFileByte(length, a) + 0x100 * OneFileByte(length, a + 1) + 0x1_0000 * OneFileByte(length, a + 2) +
            0x100_0000 * OneFileByte(length, a + 3)
  {
  }

  lemma LengthField(length: Word)
    ensures Field(OneFile(length), BLOCK) == length
  {
    FieldIs(length, BLOCK);
  }

  lemma OneFileFields(length: Word)
    ensures var img := OneFile(length);
            && Dentries(img) == Inodes(img) == Blocks(img) == 1 && Sized(img)
            && Length(img, 0) == length && FileType(img, 0) == 2 && InodeOf(img, 0) == 0
            && (forall k :: 0 <= k < INODE_BLOCKS ==> BlockOf(img, 0, k) == 0)
  {
    var img := OneFile(length);
    FieldIs(length, 0);
    FieldIs(length, 4);
    FieldIs(length, 8);
    FieldIs(length, DENTRY + NAME);
    FieldIs(length, DENTRY + NAME + 4);
    LengthField(length);
    forall k | 0 <= k < INODE_BLOCKS ensures BlockOf(img, 0, k) == 0 { FieldIs(length, BLOCK + 4 + 4 * k); }
  }

  lemma OneFileStarts(length: Word)
    requires 4 <= length <= INODE_BLOCKS * BLOCK && GoodInodes(OneFile(length)) && Inodes(OneFile(length)) == 1
    requires Length(OneFile(length), 0) == length && BlockOf(OneFile(length), 0, 0) == 0
    ensures Flat(OneFile(length), 0)[..4] == MAGIC
  {
    var img := OneFile(length);
    assert BlockAt(img, 0) == 2 * BLOCK;
    forall k | 0 <= k < 4 ensures Flat(img, 0)[k] == MAGIC[k] {
      assert k / BLOCK == 0 && k % BLOCK == k;
      assert Flat(img, 0)[k] == FileByte(img, 0, k);
      assert img[2 * BLOCK + k] == OneFileByte(length, 2 * BLOCK + k);
    }
  }

  lemma OneFileIs(length: Word)
    requires length <= INODE_BLOCKS * BLOCK
    ensures var img := OneFile(length);
            && WellFormed(img) && Inodes(img) == 1 && Length(img, 0) == length
            && EntryOf(img, NAMED_A) == 0 && InodeOf(img, 0) == 0
            && (length >= 4 ==> Flat(img, 0)[..4] == MAGIC)
  {
    var img := OneFile(length);
    OneFileFields(length);
    assert GoodInode(img, 0);
    NamedA(img);
    if length >= 4 { OneFileStarts(length); }
  }

  /** Reads of the second block of a two-block file, and far past the end of a 1 MB file, do not give the slice. */
  lemma ReadsThatFail()
    ensures var small, large := OneFile(8192), OneFile(0x10_0000);
            && WellFormed(small) && WellFormed(large) && Inodes(small) == Inodes(large) == 1
            && ReadFile(small, 0, 4096, 0xFFFF_F000) != Data(Slice(Flat(small, 0), 4096, 0xFFFF_F000))
            && ReadFile(large, 0, 0x8010_0001, 1) != Data(Slice(Flat(large, 0), 0x8010_0001, 1))
  {
    OneFileIs(8192);
    OneFileIs(0x10_0000);
    ReadFailures(OneFile(8192), 0);
    ReadFailures(OneFile(0x10_0000), 0);
  }

  /** An executable one byte larger than the window, on a well-formed image, stops the machine. */
  lemma FaultsOnWellFormedImage(junk: Bytes)
    requires |junk| >= HEADER
    ensures WellFormed(OneFile(WINDOW + 1)) && ProbeOf(OneFile(WINDOW + 1), NAMED_A, junk) == LoadFaults
  {
    OneFileIs(WINDOW + 1);
    CleanIff(OneFile(WINDOW + 1), NAMED_A, junk);
  }

  /** With a dangling entry, stale stack bytes that look like an executable make the load fail. */
  lemma FailsOnStaleStack(junk: Bytes)
    requires |junk| >= HEADER
    ensures Typed(Dangling())
    ensures ProbeOf(Dangling(), NAMED_A, junk) == if junk[..4] == MAGIC then LoadFails else NotExecutable
  {
    var img := Dangling();
    assert Dentries(img) == 1 && Inodes(img) == Blocks(img) == 0;
    assert FileType(img, 0) == 2 && InodeOf(img, 0) == 0;
    NamedA(img);
    CleanIff(img, NAMED_A, junk);
    HeaderIs(img, 0, junk);
  }
}
