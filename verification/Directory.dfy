/** Directory entries: lookup by name and the shared read-out position. */
module Directory {
  import opened Words
  import opened FileSystem

  datatype Dentry = Dentry(name: Bytes, fileType: int, inode: int, reserved: Bytes)

  function DentryOf(img: Bytes, i: int): Dentry
    requires Sized(img) && 0 <= i < Dentries(img)
  {
    var d := DentryAt(i);
    Dentry(img[d..d + NAME], FileType(img, i), InodeOf(img, i), img[d + 40..d + DENTRY])
  }

  /** Characters before the first NUL, at most 32. */
  function NameLength(img: Bytes, d: int, k: int := 0): (r: int)
    requires 0 <= d && d + NAME <= |img| && 0 <= k <= NAME
    ensures k <= r <= NAME
    decreases NAME - k
  {
    if k == NAME || img[d + k] == NUL then k else NameLength(img, d, k + 1)
  }

  /** An entry's name; a name of 32 characters has no terminator. */
  function Name(img: Bytes, i: int): Bytes
    requires Sized(img) && 0 <= i < Dentries(img)
  {
    img[DentryAt(i)..DentryAt(i) + NameLength(img, DentryAt(i))]
  }

  function Truncated(q: Bytes): Bytes { if |q| > NAME then q[..NAME] else q }

  /** All names in table order. */
  function Names(img: Bytes): (r: seq<Bytes>)
    requires Sized(img)
    ensures |r| == Dentries(img)
  {
    seq(Dentries(img), i requires 0 <= i < Dentries(img) => Name(img, i))
  }

  /** The first index from i on that holds the key, or -1. */
  function FirstIn(names: seq<Bytes>, key: Bytes, i: int := 0): (r: int)
    requires 0 <= i <= |names|
    ensures r == -1 || i <= r < |names|
    ensures r >= 0 ==> names[r] == key && forall j :: i <= j < r ==> names[j] != key
    ensures r == -1 ==> forall j :: i <= j < |names| ==> names[j] != key
    decreases |names| - i
  {
    if i == |names| then -1 else if names[i] == key then i else FirstIn(names, key, i + 1)
  }

  /** The first entry whose name is the query cut to 32 characters, or -1. */
  function FirstNamed(img: Bytes, q: Bytes): (r: int)
    requires Sized(img)
    ensures r == -1 || 0 <= r < Dentries(img)
  {
    FirstIn(Names(img), Truncated(q))
  }

  /** Queries with the same first 32 characters find the same entry, longer ones an unterminated name that fills its
      field. */
  lemma LongQueries(img: Bytes, q: Bytes, r: Bytes, i: int)
    requires Sized(img) && |q| >= 32 && |r| >= 32 && q[..32] == r[..32]
    ensures FirstNamed(img, q) == FirstNamed(img, r)
    ensures 0 <= i < Dentries(img) && Names(img)[i] == q[..32] ==>
              (forall j :: 0 <= j < i ==> Names(img)[j] != q[..32]) ==> FirstNamed(img, q) == i
  {
    assert q[..32] == Truncated(q) && r[..32] == Truncated(r);
  }

  /** Shorter queries find the first entry of exactly that name. */
  lemma ShortQueries(img: Bytes, q: Bytes, i: int)
    requires Sized(img) && |q| <= 32
    ensures FirstNamed(img, q) == i && i >= 0 <==>
            0 <= i < Dentries(img) && Names(img)[i] == q && forall j :: 0 <= j < i ==> Names(img)[j] != q
  {
  }

  /** strlen over raw memory */
  method Strlen(mem: Bytes, a: int, ghost stop: int) returns (n: int)
    requires 0 <= a <= stop < |mem| && mem[stop] == NUL
    ensures 0 <= n <= stop - a && mem[a + n] == NUL && forall j :: a <= j < a + n ==> mem[j] != NUL
  {
    n := 0;
    while mem[a + n] != NUL
      invariant 0 <= n <= stop - a && forall j :: a <= j < a + n ==> mem[j] != NUL
      decreases stop - n
    {
      n := n + 1;
    }
  }

  /** Characters are signed. */
  function Char(b: Byte): int { if b < 128 then b as int else b as int - 256 }

  /** The first n bytes of q and of memory at a agree up to i and differ there. */
  predicate DifferAt(q: Bytes, mem: Bytes, a: int, n: int, i: int)
    requires 0 <= n <= |q| && 0 <= a && a + n <= |mem|
  {
    0 <= i < n && q[i] != mem[a + i] && forall j :: 0 <= j < i ==> q[j] == mem[a..a + n][j]
  }

  /** strncmp of a NUL-free string with raw memory: the difference of the first two characters that differ. */
  method Strncmp(q: Bytes, mem: Bytes, a: int, n: int) returns (r: int)
    requires 0 <= n <= |q| && 0 <= a && a + n <= |mem| && NUL !in q
    ensures r == 0 <==> q[..n] == mem[a..a + n]
    ensures r != 0 ==> exists i :: DifferAt(q, mem, a, n, i) && r == Char(q[i]) - Char(mem[a + i])
  {
    var i := 0;
    while i < n
      invariant 0 <= i <= n && forall j :: 0 <= j < i ==> q[j] == mem[a..a + n][j]
    {
      if q[i] != mem[a + i] || q[i] == NUL {
        assert q[..n][i] != mem[a..a + n][i];
        assert DifferAt(q, mem, a, n, i);
        return Char(q[i]) - Char(mem[a + i]);
      }
      i := i + 1;
    }
    return 0;
  }

  /** An unterminated name runs on into the type field, whose high bytes are zero. */
  lemma TypeStopsStrlen(img: Bytes, i: int)
    requires Typed(img) && 0 <= i < Dentries(img)
    ensures img[DentryAt(i) + NAME + 3] == NUL
  {
    assert FileType(img, i) <= 2;
  }

  /** Does entry i answer to q? Both lengths are clipped to 32 before the comparison. */
  method Matches(img: Bytes, q: Bytes, i: int) returns (r: bool)
    requires Typed(img) && NUL !in q && 0 <= i < Dentries(img)
    ensures r <==> Name(img, i) == Truncated(q)
  {
    TypeStopsStrlen(img, i);
    var d := DentryAt(i);
    var l1 := |q|;
    var l2 := Strlen(img, d, d + NAME + 3);
    if l1 > NAME { l1 := NAME; }
    if l2 > NAME { l2 := NAME; }
    NameIs(img, i, l2);
    assert Truncated(q) == q[..l1];
    if l1 != l2 { return false; }
    var cmp := Strncmp(q, img, d, l1);
    return cmp == 0;
  }

  /** read_dentry_by_name: even unterminated 32-character names are compared up to their 32nd character. */
  method ReadDentryByName(img: Bytes, q: Bytes) returns (r: Option<Dentry>)
    requires Typed(img) && NUL !in q
    ensures r == if FirstNamed(img, q) == -1 then None else Some(DentryOf(img, FirstNamed(img, q)))
  {
    var i, n := 0, Dentries(img);
    while i < n
      invariant 0 <= i <= n && FirstNamed(img, q) == FirstIn(Names(img), Truncated(q), i)
    {
      var found := Matches(img, q, i);
      assert Names(img)[i] == Name(img, i);
      if found { return Some(DentryOf(img, i)); }
      i := i + 1;
    }
    return None;
  }

  lemma NameIs(img: Bytes, i: int, n: int)
    requires Sized(img) && 0 <= i < Dentries(img) && 0 <= n <= NAME
    requires forall a :: DentryAt(i) <= a < DentryAt(i) + n ==> img[a] != NUL
    requires n < NAME ==> img[DentryAt(i) + n] == NUL
    ensures Name(img, i) == img[DentryAt(i)..DentryAt(i) + n]
  {
    LengthIs(img, DentryAt(i), n, 0);
  }

  lemma {:induction false} LengthIs(img: Bytes, d: int, n: int, k: int)
    requires 0 <= d && d + NAME <= |img| && 0 <= k <= n <= NAME
    requires forall a :: d + k <= a < d + n ==> img[a] != NUL
    requires n < NAME ==> img[d + n] == NUL
    ensures NameLength(img, d, k) == n
    decreases n - k
  {
    if k < n { LengthIs(img, d, n, k + 1); }
  }

  /** A listed name leads back to its own entry exactly when no earlier entry has the same name. */
  lemma LookupFindsOwn(img: Bytes, i: int)
    requires Sized(img) && 0 <= i < Dentries(img)
    ensures FirstNamed(img, Names(img)[i]) == i <==> forall j :: 0 <= j < i ==> Names(img)[j] != Names(img)[i]
  {
    assert Truncated(Name(img, i)) == Name(img, i);
  }

  /** Names before the first empty one, from i on. */
  function Listed(names: seq<Bytes>, i: int := 0): (r: seq<Bytes>)
    requires 0 <= i <= |names|
    ensures i + |r| <= |names| && r == names[i..i + |r|] && [] !in r
    ensures i + |r| < |names| ==> names[i + |r|] == []
    decreases |names| - i
  {
    if i == |names| || names[i] == [] then [] else [names[i]] + Listed(names, i + 1)
  }

  /** A buffer starts with this string of length n. */
  predicate StartsWith(b: Bytes, n: int, s: Bytes) { 0 <= n <= |b| && b[..n] == s }

  /** The name bytes, a terminator, and the length up to the first NUL. */
  method CopyName(img: Bytes, i: int, buf: array<Byte>) returns (n: int)
    requires Sized(img) && 0 <= i < Dentries(img) && buf.Length > NAME
    modifies buf
    ensures 0 <= n <= NAME && StartsWith(buf[..], n, Name(img, i)) && buf[n] == NUL
  {
    var d := DentryAt(i);
    var k := 0;
    while k < NAME
      invariant 0 <= k <= NAME && forall j :: 0 <= j < k ==> buf[j] == img[d + j]
    {
      buf[k] := img[d + k];
      k := k + 1;
    }
    buf[NAME] := NUL;
    n := Strlen(buf[..], 0, NAME);
    NameInBuffer(img, i, buf[..], n);
  }

  lemma NameInBuffer(img: Bytes, i: int, b: Bytes, n: int)
    requires Sized(img) && 0 <= i < Dentries(img) && |b| > NAME && 0 <= n <= NAME
    requires forall j :: 0 <= j < NAME ==> b[j] == img[DentryAt(i) + j]
    requires b[n] == NUL && forall j :: 0 <= j < n ==> b[j] != NUL
    ensures StartsWith(b, n, Name(img, i))
  {
    var d := DentryAt(i);
    forall a | d <= a < d + n ensures img[a] != NUL { assert b[a - d] == img[d + (a - d)]; }
    NameIs(img, i, n);
    assert forall j :: 0 <= j < n ==> b[..n][j] == img[d..d + n][j];
  }

  /** The directory stream: one position shared by every reader. */
  class Stream {
    const img: Bytes
    var index: nat                 // current_dir_read_index

    constructor (img: Bytes)
      ensures this.img == img && index == 0
    {
      this.img := img;
      index := 0;
    }

    /** filesys_open, as open calls it for a directory */
    method Open()
      modifies this
      ensures index == 0
    {
      index := 0;
    }

    /** dir_read */
    method Read(buf: array<Byte>) returns (n: int)
      requires Sized(img) && 0 <= index <= Dentries(img) && buf.Length > NAME
      modifies this, buf
      ensures 0 <= index <= Dentries(img)
      ensures old(index) == Dentries(img) ==> n == 0 && index == old(index) && buf[..] == old(buf[..])
      ensures old(index) < Dentries(img) ==>
                && index == old(index) + 1
                && 0 <= n <= NAME && StartsWith(buf[..], n, Names(img)[old(index)]) && buf[n] == NUL
    {
      if index >= Dentries(img) { return 0; }
      n := CopyName(img, index, buf);
      assert Names(img)[index] == Name(img, index);
      index := index + 1;
    }

    /** Reading an opened directory until a read returns 0, as ls and grep do. */
    method ReadAll() returns (names: seq<Bytes>)
      requires Sized(img)
      modifies this
      ensures names == Listed(Names(img))
    {
      ghost var all := Names(img);
      var buf := new Byte[NAME + 1];
      Open();
      names := [];
      var n := Read(buf);
      while n != 0
        invariant 0 <= index <= |all| && |names| <= |all|
        invariant forall j :: 0 <= j < |names| ==> names[j] == all[j] && names[j] != []
        invariant n != 0 ==> 0 < n <= NAME && index == |names| + 1 && StartsWith(buf[..], n, all[|names|])
        invariant n == 0 && |names| < |all| ==> all[|names|] == []
        decreases n != 0, |all| - index
      {
        var name := buf[..][..n];
        assert name == all[|names|] && |name| == n;
        names := Appended(names, name, all);
        n := Read(buf);
      }
      PrefixIsListed(all, names);
    }
  }

  lemma PrefixIsListed(all: seq<Bytes>, names: seq<Bytes>)
    requires |names| <= |all| && forall j :: 0 <= j < |names| ==> names[j] == all[j] && names[j] != []
    requires |names| < |all| ==> all[|names|] == []
    ensures names == Listed(all)
  {
    var r := Listed(all);
    assert forall j :: 0 <= j < |r| ==> r[j] == all[j] && r[j] in r;
    assert |r| == |names|;
  }

  /** Appending keeps agreement with the table. */
  function Appended(names: seq<Bytes>, name: Bytes, ghost all: seq<Bytes>): (r: seq<Bytes>)
    requires |names| < |all| && name == all[|names|] && name != []
    requires forall j :: 0 <= j < |names| ==> names[j] == all[j] && names[j] != []
    ensures |r| == |names| + 1 && forall j :: 0 <= j < |r| ==> r[j] == all[j] && r[j] != []
  {
    names + [name]
  }

  /** The listing is the whole table, once each and in order, exactly when no name is empty. */
  lemma ListsEverything(names: seq<Bytes>)
    ensures Listed(names) == names <==> [] !in names
  {
    assert Listed(names) == names[..|Listed(names)|];
    assert names[..|names|] == names;
  }
}
