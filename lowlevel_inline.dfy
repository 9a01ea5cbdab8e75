/** The inline helpers of `lowlevel.hpp`: the naive pattern search, the
    cached page size and page alignment. */
module LowLevelInline {
  import opened Text
  import opened LowLevel

  /** The pattern occurs in the haystack at offset `p`. */
  predicate MatchAt(haystack: seq<Byte>, pattern: seq<Byte>, p: nat) {
    p + |pattern| <= |haystack| && haystack[p..p + |pattern|] == pattern
  }

  /** The search's answer: nothing for an empty or over-long pattern,
      otherwise the smallest offset at or after `from` where the pattern
      occurs, if any. */
  function FirstMatchFrom(haystack: seq<Byte>, pattern: seq<Byte>, from: nat): (r: Option<nat>)
    ensures r.Some? ==> from <= r.value && MatchAt(haystack, pattern, r.value)
    ensures r.Some? ==> forall q :: from <= q < r.value ==> !MatchAt(haystack, pattern, q)
    ensures r.None? && |pattern| > 0 ==> forall q :: from <= q ==> !MatchAt(haystack, pattern, q)
    decreases |haystack| - from
  {
    if |pattern| == 0 || from + |pattern| > |haystack| then None
    else if MatchAt(haystack, pattern, from) then Some(from)
    else FirstMatchFrom(haystack, pattern, from + 1)
  }

  function FirstMatch(haystack: seq<Byte>, pattern: seq<Byte>): Option<nat> {
    FirstMatchFrom(haystack, pattern, 0)
  }

  /** An empty pattern and a pattern longer than the haystack are never
      found; any other is found exactly when it occurs somewhere. */
  lemma FirstMatchNone(haystack: seq<Byte>, pattern: seq<Byte>)
    ensures |pattern| == 0 || |pattern| > |haystack| ==> FirstMatch(haystack, pattern).None?
    ensures |pattern| > 0 ==>
              (FirstMatch(haystack, pattern).None? <==> forall q: nat :: !MatchAt(haystack, pattern, q))
  {
  }

  /** `mem_search` over the first `len` bytes of `start` and the first
      `patternLen` bytes of `pattern`: the offset of the match in place of
      its address. */
  method MemSearch(start: array<Byte>, len: nat, pattern: array<Byte>, patternLen: nat)
    returns (r: Option<nat>)
    requires len <= start.Length && patternLen <= pattern.Length
    ensures r == FirstMatch(start[..len], pattern[..patternLen])
  {
    ghost var h, n := start[..len], pattern[..patternLen];
    if patternLen == 0 || patternLen > len {
      return None;
    }
    var p := 0;
    while p < len - patternLen + 1
      invariant p <= len - patternLen + 1
      invariant FirstMatchFrom(h, n, p) == FirstMatch(h, n)
    {
      var i := 0;
      while i < patternLen
        invariant i <= patternLen
        invariant forall j :: 0 <= j < i ==> start[p + j] == pattern[j]
      {
        if start[p + i] != pattern[i] {
          break;
        }
        i := i + 1;
      }
      if i == patternLen {
        assert h[p..p + patternLen] == n;
        return Some(p);
      }
      assert h[p..p + patternLen][i] != n[i];
      p := p + 1;
    }
    r := None;
  }

  /** A page size the alignment masks are meant for: a power of two. */
  predicate IsPowerOfTwo(n: nat) {
    n == 1 || (n > 1 && n % 2 == 0 && IsPowerOfTwo(n / 2))
  }

  /** A product of ps and d is at least ps when d is positive and at most
      -ps when d is negative. */
  lemma MulSign(ps: int, d: int)
    requires ps > 0
    ensures d >= 1 ==> ps * d >= ps
    ensures d <= -1 ==> ps * d <= -ps
  {
  }

  /** Between two multiples of ps lies at least ps. */
  lemma MulLess(ps: int, q: int, m: int)
    requires ps > 0 && ps * q < ps * m
    ensures ps * q + ps <= ps * m
  {
    assert ps * (m - q) == ps * m - ps * q;
    MulSign(ps, m - q);
  }

  /** Euclidean division is unique: `x = ps * q + r` with `0 <= r < ps`
      gives the quotient and the remainder. */
  lemma DivMod(x: int, ps: int, q: int, r: int)
    requires ps > 0 && x == ps * q + r && 0 <= r < ps
    ensures x % ps == r && x / ps == q
  {
    var d := q - x / ps;
    assert x == ps * (x / ps) + x % ps;
    assert ps * d == x % ps - r;
    MulSign(ps, d);
  }

  /** Euclidean division: the quotient and the remainder recompose `x`. */
  lemma Quotient(x: int, ps: int)
    requires ps > 0
    ensures x == ps * (x / ps) + x % ps && 0 <= x % ps < ps
  {
  }

  /** Subtracting the remainder gives a multiple of `ps` within `ps` below. */
  lemma RoundDown(a: nat, ps: int)
    requires ps > 0
    ensures 0 <= a - a % ps <= a && a % ps < ps && (a - a % ps) % ps == 0
  {
    Quotient(a, ps);
    DivMod(a - a % ps, ps, a / ps, 0);
  }

  /** Powers of two are closed under products. */
  lemma {:induction false} PowerOfTwoProduct(x: nat, y: nat)
    requires IsPowerOfTwo(x) && IsPowerOfTwo(y)
    ensures IsPowerOfTwo(x * y)
    decreases x
  {
    if x > 1 {
      var h := x / 2;
      PowerOfTwoProduct(h, y);
      assert x * y == 2 * (h * y);
      assert y >= 1 && h * y >= 1;
      DivMod(x * y, 2, h * y, 0);
    }
  }

  /** 2^64, the size of the address space, is a power of two. */
  lemma AddressSpacePowerOfTwo()
    ensures IsPowerOfTwo(Two64)
  {
    assert IsPowerOfTwo(0x1_0000);
    PowerOfTwoProduct(0x1_0000, 0x1_0000);
    PowerOfTwoProduct(0x1_0000_0000, 0x1_0000_0000);
  }

  /** Of two powers of two, the larger is a multiple of the smaller. */
  lemma {:induction false} PowerOfTwoDivides(p: nat, q: nat)
    requires IsPowerOfTwo(p) && IsPowerOfTwo(q) && p <= q
    ensures q % p == 0
    decreases q
  {
    if p == 1 {
      DivMod(q, 1, q, 0);
    } else {
      PowerOfTwoDivides(p / 2, q / 2);
      var k := (q / 2) / (p / 2);
      assert q / 2 == (p / 2) * k;
      assert q == p * k;
      DivMod(q, p, k, 0);
    }
  }

  /** `page_align_down`: `a & ~(ps - 1)`, which for a power of two `ps`
      clears the bits below `ps`, that is subtracts `a % ps`. */
  function AlignDown(a: Address, ps: nat): (r: Address)
    requires IsPowerOfTwo(ps)
    ensures r <= a && a - r < ps && r % ps == 0
  {
    RoundDown(a, ps);
    a - a % ps
  }

  /** `page_align_up`: `(a + ps - 1) & ~(ps - 1)`, the sum wrapping
      around `uintptr_t`. */
  function AlignUp(a: Address, ps: nat): (r: Address)
    requires IsPowerOfTwo(ps) && ps < Two64
    ensures r % ps == 0
  {
    AlignDown((a + ps - 1) % Two64, ps)
  }

  /** Without overflow the sum needs no wrapping. */
  lemma AlignUpNoWrap(a: Address, ps: nat)
    requires IsPowerOfTwo(ps) && ps < Two64 && a + ps - 1 < Two64
    ensures AlignUp(a, ps) == AlignDown(a + ps - 1, ps)
  {
    DivMod(a + ps - 1, Two64, 0, a + ps - 1);
  }

  /** Without overflow the rounded-up address is the next multiple of `ps`
      at or above `a`. */
  lemma AlignUpBounds(a: Address, ps: nat)
    requires IsPowerOfTwo(ps) && ps < Two64 && a + ps - 1 < Two64
    ensures a <= AlignUp(a, ps) < a + ps
  {
    AlignUpNoWrap(a, ps);
  }

  /** An aligned address lies a whole page below the end of the address
      space, because `ps` divides 2^64. */
  lemma AlignedRoom(a: Address, ps: nat)
    requires IsPowerOfTwo(ps) && ps < Two64 && a % ps == 0
    ensures a + ps <= Two64
  {
    AddressSpacePowerOfTwo();
    PowerOfTwoDivides(ps, Two64);
    var q, m := a / ps, Two64 / ps;
    Quotient(a, ps);
    Quotient(Two64, ps);
    MulLess(ps, q, m);
  }

  /** An aligned address stays where it is under both alignments; rounding
      it up never overflows. */
  lemma AlignedFixed(a: Address, ps: nat)
    requires IsPowerOfTwo(ps) && ps < Two64 && a % ps == 0
    ensures AlignDown(a, ps) == a
    ensures AlignUp(a, ps) == a
  {
    AlignedRoom(a, ps);
    AlignUpNoWrap(a, ps);
    DivMod(a + ps - 1, ps, a / ps, ps - 1);
    Quotient(a, ps);
  }

  /** Aligning twice is aligning once. */
  lemma AlignIdempotent(a: Address, ps: nat)
    requires IsPowerOfTwo(ps) && ps < Two64
    ensures AlignDown(AlignDown(a, ps), ps) == AlignDown(a, ps)
    ensures AlignUp(AlignUp(a, ps), ps) == AlignUp(a, ps)
  {
    AlignedFixed(AlignDown(a, ps), ps);
    AlignedFixed(AlignUp(a, ps), ps);
  }

  /** Rounding up the very top of the address space wraps to zero. */
  lemma AlignUpWraps()
    ensures IsPowerOfTwo(4096) && AlignUp(Two64 - 1, 4096) == 0
  {
    assert IsPowerOfTwo(4096);
    DivMod(Two64 - 1 + 4095, Two64, 1, 4094);
    DivMod(4094, 4096, 0, 4094);
  }

  /** The function-static variable of `get_page_size`: zero until the first
      call stores what `sysconf` returned. */
  class PageSizeCache {
    var pageSize: nat

    constructor ()
      ensures pageSize == 0
    {
      pageSize := 0;
    }

    /** `get_page_size`, given what `sysconf(_SC_PAGESIZE)` would return
      (converted to `size_t`) on this call. */
    method GetPageSize(sysconf: Address) returns (ps: nat)
      modifies this
      ensures old(pageSize) != 0 ==> pageSize == old(pageSize)
      ensures old(pageSize) == 0 ==> pageSize == sysconf
      ensures ps == pageSize
    {
      if pageSize == 0 {
        pageSize := sysconf;
      }
      ps := pageSize;
    }
  }
}
