/** The byte loops of `lowlevel.c` over arrays, and the decoding of raw
    `mmap`, `munmap` and `mprotect` syscall results. */
module LowLevel {
  import opened Text
  import opened Numbers

  /** An `unsigned char`. */
  type Byte = b: int | 0 <= b < 0x100

  /** A raw syscall result: a C `long` on a 64-bit target. */
  type Long = Int64

  const Two64: int := 0x1_0000_0000_0000_0000

  /** An address: a `uintptr_t` on a 64-bit target. */
  type Address = a: int | 0 <= a < 0x1_0000_0000_0000_0000

  /** `memcmp`'s answer on equal-length byte strings: zero when they are
      equal, otherwise the difference of the bytes at the first position
      where they differ. */
  function Compare(a: seq<Byte>, b: seq<Byte>): (r: int)
    requires |a| == |b|
    ensures -0xFF <= r <= 0xFF
    decreases |a|
  {
    if a == [] then 0
    else if a[0] != b[0] then a[0] as int - b[0] as int
    else Compare(a[1..], b[1..])
  }

  /** Equal prefixes followed by a differing byte decide the comparison. */
  lemma {:induction false} CompareAt(a: seq<Byte>, b: seq<Byte>, i: nat)
    requires |a| == |b| && i < |a|
    requires a[..i] == b[..i] && a[i] != b[i]
    ensures Compare(a, b) == a[i] as int - b[i] as int
    decreases i
  {
    if i > 0 {
      assert a[0] == a[..i][0] == b[..i][0] == b[0];
      assert a[1..][..i - 1] == a[..i][1..] && b[1..][..i - 1] == b[..i][1..];
      CompareAt(a[1..], b[1..], i - 1);
    }
  }

  /** The comparison is zero exactly when the strings are equal. */
  lemma {:induction false} CompareZero(a: seq<Byte>, b: seq<Byte>)
    requires |a| == |b|
    ensures Compare(a, b) == 0 <==> a == b
    decreases |a|
  {
    if a != [] && a[0] == b[0] {
      CompareZero(a[1..], b[1..]);
      assert a == [a[0]] + a[1..] && b == [b[0]] + b[1..];
    }
  }

  /** Swapping the arguments negates the answer. */
  lemma {:induction false} CompareAntisymmetric(a: seq<Byte>, b: seq<Byte>)
    requires |a| == |b|
    ensures Compare(b, a) == -Compare(a, b)
    decreases |a|
  {
    if a != [] && a[0] == b[0] {
      CompareAntisymmetric(a[1..], b[1..]);
    }
  }

  /** `lowlevel_memcmp` on the first `n` bytes. */
  method Memcmp(s1: array<Byte>, s2: array<Byte>, n: nat) returns (r: int)
    requires n <= s1.Length && n <= s2.Length
    ensures r == Compare(s1[..n], s2[..n])
    ensures r == 0 <==> s1[..n] == s2[..n]
  {
    var i := 0;
    while i < n
      invariant 0 <= i <= n
      invariant s1[..i] == s2[..i]
    {
      if s1[i] != s2[i] {
        assert s1[..n][..i] == s1[..i] && s2[..n][..i] == s2[..i];
        CompareAt(s1[..n], s2[..n], i);
        CompareZero(s1[..n], s2[..n]);
        return s1[i] as int - s2[i] as int;
      }
      assert s1[..i + 1] == s1[..i] + [s1[i]] && s2[..i + 1] == s2[..i] + [s2[i]];
      i := i + 1;
    }
    CompareZero(s1[..n], s2[..n]);
    return 0;
  }

  /** `lowlevel_memcpy`: the first `n` bytes of `dest` become those of
      `src`, forward one byte at a time; nothing else changes. */
  method Memcpy(dest: array<Byte>, src: array<Byte>, n: nat)
    requires n <= dest.Length && n <= src.Length
    modifies dest
    ensures dest[..n] == old(src[..n])
    ensures dest[n..] == old(dest[n..])
    ensures src[..] == old(src[..])
  {
    var i := 0;
    while i < n
      invariant 0 <= i <= n
      invariant forall j :: 0 <= j < i ==> dest[j] == old(src[j])
      invariant forall j :: i <= j < dest.Length ==> dest[j] == old(dest[j])
      invariant forall j :: 0 <= j < src.Length ==> src[j] == old(src[j])
    {
      dest[i] := src[i];
      i := i + 1;
    }
  }

  /** `lowlevel_memset`: the first `n` bytes become `c` converted to an
      `unsigned char`, that is `c` modulo 256; nothing else changes. */
  method Memset(s: array<Byte>, c: Int32, n: nat)
    requires n <= s.Length
    modifies s
    ensures forall i :: 0 <= i < n ==> s[i] == c % 0x100
    ensures s[n..] == old(s[n..])
  {
    var i := 0;
    while i < n
      invariant 0 <= i <= n
      invariant forall j :: 0 <= j < i ==> s[j] == c % 0x100
      invariant s[n..] == old(s[n..])
    {
      s[i] := c % 0x100;
      i := i + 1;
    }
  }

  /** The length of a NUL-terminated string: the index of its first NUL. */
  function NulIndex(s: seq<Byte>): (r: nat)
    requires 0 in s
    ensures r < |s| && s[r] == 0 && forall j :: 0 <= j < r ==> s[j] != 0
  {
    if s[0] == 0 then 0 else NulIndex(s[1..]) + 1
  }

  /** The first NUL is where `NulIndex` points. */
  lemma {:induction false} NulIndexFirst(s: seq<Byte>, r: nat)
    requires r < |s| && s[r] == 0 && forall j :: 0 <= j < r ==> s[j] != 0
    ensures NulIndex(s) == r
    decreases r
  {
    if r > 0 {
      NulIndexFirst(s[1..], r - 1);
    }
  }

  /** `lowlevel_strlen`: the string must be NUL-terminated within the array. */
  method Strlen(s: array<Byte>) returns (r: nat)
    requires 0 in s[..]
    ensures r == NulIndex(s[..])
  {
    r := 0;
    assert exists k :: 0 <= k < s.Length && s[k] == 0 by {
      var k :| 0 <= k < |s[..]| && s[..][k] == 0;
      assert s[k] == 0;
    }
    while s[r] != 0
      invariant r < s.Length
      invariant forall j :: 0 <= j < r ==> s[j] != 0
      invariant exists k :: r <= k < s.Length && s[k] == 0
      decreases s.Length - r
    {
      r := r + 1;
    }
    NulIndexFirst(s[..], r);
  }

  /** The characters of an ASCII text as bytes. */
  function Ascii(t: string): (r: seq<Byte>)
    requires forall i :: 0 <= i < |t| ==> t[i] as int < 0x100
    ensures |r| == |t| && forall i :: 0 <= i < |t| ==> r[i] == t[i] as int
  {
    seq(|t|, i requires 0 <= i < |t| => t[i] as int)
  }

  /** The length the unit test expects of "Hello, World!". */
  lemma HelloWorldLength()
    ensures NulIndex(Ascii("Hello, World!") + [0]) == 13
  {
    var s := Ascii("Hello, World!") + [0];
    assert s[13] == 0;
    assert forall j :: 0 <= j < 13 ==> s[j] == "Hello, World!"[j] as int != 0;
  }

  /** The outcome of `lowlevel_mmap`: an address, or `MAP_FAILED` with the
      value stored in `errno`. */
  datatype Mapping = Mapped(address: Address) | MapFailed(errno: Int32)

  /** `lowlevel_mmap`'s test on the raw result: as an unsigned long, at
      least `-4095UL`. */
  function DecodeMmap(result: Long): (r: Mapping)
    ensures r.MapFailed? <==> -4095 <= result <= -1
    ensures r.MapFailed? ==> r.errno == -result && 1 <= r.errno <= 4095
    ensures 0 <= result ==> r == Mapped(result)
    ensures result < -4095 ==> r == Mapped(result + Two64)
  {
    var unsigned := result % Two64;
    if unsigned >= Two64 - 4095 then MapFailed(-WrapInt(result)) else Mapped(unsigned)
  }

  /** The kernel's two kinds of answer are told apart: every address below
      the top 4095 bytes comes back as itself, and every error number as
      itself. */
  lemma DecodeMmapInverse(address: Address, errno: int)
    ensures address < Two64 - 4095 ==>
              DecodeMmap(if address < 0x8000_0000_0000_0000 then address else address - Two64) == Mapped(address)
    ensures 1 <= errno <= 4095 ==> DecodeMmap(-errno) == MapFailed(errno)
  {
  }

  /** The outcome of `lowlevel_munmap` or `lowlevel_mprotect`: the value
      returned, and the value stored in `errno` if one is. */
  datatype Status = Status(ret: Int32, errno: Option<Int32>)

  /** The test both `lowlevel_munmap` and `lowlevel_mprotect` apply to the
      raw result: negative is a failure. */
  function DecodeStatus(result: Long): (r: Status)
    ensures r.ret == 0 || r.ret == -1
    ensures r.ret == -1 <==> result < 0
    ensures r.errno.Some? <==> result < 0
    ensures -0x8000_0000 < result < 0 ==> r.errno == Some(-result)
  {
    if result < 0 then Status(-1, Some(WrapInt(-(result as int)))) else Status(0, None)
  }

  /** A negated error number comes back as itself. */
  lemma DecodeStatusInverse(errno: Int32)
    requires 1 <= errno
    ensures DecodeStatus(-errno) == Status(-1, Some(errno))
  {
  }
}
