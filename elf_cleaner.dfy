/** The entry rewrite at the heart of `elf-cleaner`: in every dynamic
    section, drop the entries older Android linkers reject and mask the
    first `DT_FLAGS_1` down to the flags they support. */
module ElfCleaner {

  type U32 = x: int | 0 <= x < 0x1_0000_0000

  /** Tags and flag bits from the ELF specification. */
  const DT_RPATH: U32 := 15
  const DT_RUNPATH: U32 := 29
  const DT_FLAGS_1: U32 := 0x6fff_fffb
  const DT_LOPROC: U32 := 0x7000_0000
  const DT_AARCH64_BTI_PLT: U32 := DT_LOPROC + 1
  const DT_AARCH64_PAC_PLT: U32 := DT_LOPROC + 3
  const DT_AARCH64_VARIANT_PCS: U32 := DT_LOPROC + 5
  const DF_1_NOW: bv64 := 0x1
  const DF_1_GLOBAL: bv64 := 0x2
  const EM_AARCH64: int := 183

  /** The flags kept in `DT_FLAGS_1`. */
  const SupportedFlags: bv64 := DF_1_NOW | DF_1_GLOBAL

  /** A dynamic-section entry as the ELF builder holds it: a bare tag, a
      tag with an integer value, or a tag with a string. */
  datatype DynEntry =
    | Auto(tag: U32)
    | Integer(tag: U32, val: bv64)
    | Str(tag: U32, text: seq<bv8>)

  /** A section's data: a list of dynamic entries, or anything else. */
  datatype SectionData = Dynamic(entries: seq<DynEntry>) | Other(bytes: seq<bv8>)

  /** The `retain` predicate: the two search-path tags always go, the three
      AArch64 ones only on an AArch64 binary. */
  predicate Keep(e: DynEntry, aarch64: bool) {
    && e.tag != DT_RPATH
    && e.tag != DT_RUNPATH
    && !(aarch64 && AArch64Tag(e.tag))
  }

  /** The three AArch64 tags the cleaner drops. */
  predicate AArch64Tag(tag: U32) {
    tag == DT_AARCH64_BTI_PLT || tag == DT_AARCH64_PAC_PLT || tag == DT_AARCH64_VARIANT_PCS
  }

  /** The entries `retain` keeps, in their order. */
  function Retained(s: seq<DynEntry>, aarch64: bool): (r: seq<DynEntry>)
    ensures |r| <= |s|
    decreases |s|
  {
    if s == [] then []
    else Retained(s[..|s| - 1], aarch64) + (if Keep(s[|s| - 1], aarch64) then [s[|s| - 1]] else [])
  }

  /** Retaining one more entry of the input appends it when it is kept. */
  lemma RetainedStep(s: seq<DynEntry>, i: nat, aarch64: bool)
    requires i < |s|
    ensures Retained(s[..i + 1], aarch64) ==
              Retained(s[..i], aarch64) + (if Keep(s[i], aarch64) then [s[i]] else [])
  {
    assert s[..i + 1][..i] == s[..i];
  }

  /** Only entries of the input that are to be kept remain. */
  lemma {:induction false} RetainedOnlyKept(s: seq<DynEntry>, aarch64: bool)
    ensures forall i :: 0 <= i < |Retained(s, aarch64)| ==>
              Retained(s, aarch64)[i] in s && Keep(Retained(s, aarch64)[i], aarch64)
    decreases |s|
  {
    if s != [] {
      var init := s[..|s| - 1];
      RetainedOnlyKept(init, aarch64);
      assert forall e :: e in init ==> e in s;
    }
  }

  /** Every entry that should be kept is kept. */
  lemma {:induction false} RetainedKeeps(s: seq<DynEntry>, aarch64: bool, e: DynEntry)
    requires e in s && Keep(e, aarch64)
    ensures e in Retained(s, aarch64)
    decreases |s|
  {
    if e != s[|s| - 1] {
      assert e in s[..|s| - 1] by {
        var k :| 0 <= k < |s| && s[k] == e;
        assert s[..|s| - 1][k] == e;
      }
      RetainedKeeps(s[..|s| - 1], aarch64, e);
    }
  }

  /** `retain` keeps a list whose entries are all to be kept unchanged. */
  lemma {:induction false} RetainedAllKept(s: seq<DynEntry>, aarch64: bool)
    requires forall i :: 0 <= i < |s| ==> Keep(s[i], aarch64)
    ensures Retained(s, aarch64) == s
    decreases |s|
  {
    if s != [] {
      RetainedAllKept(s[..|s| - 1], aarch64);
      assert s == s[..|s| - 1] + [s[|s| - 1]];
    }
  }

  /** `retain` on a concatenation is `retain` on each part. */
  lemma {:induction false} RetainedAppend(a: seq<DynEntry>, b: seq<DynEntry>, aarch64: bool)
    ensures Retained(a + b, aarch64) == Retained(a, aarch64) + Retained(b, aarch64)
    decreases |b|
  {
    if b == [] {
      assert a + b == a;
    } else {
      var b' := b[..|b| - 1];
      assert (a + b)[..|a + b| - 1] == a + b';
      RetainedAppend(a, b', aarch64);
    }
  }

  /** The mask applied to the first integer `DT_FLAGS_1` entry. */
  function MaskEntry(e: DynEntry): DynEntry
    requires e.Integer?
  {
    e.(val := e.val & SupportedFlags)
  }

  predicate IsFlags(e: DynEntry) {
    e.Integer? && e.tag == DT_FLAGS_1
  }

  /** The `iter_mut` loop: the first integer `DT_FLAGS_1` entry is masked,
      and the loop stops there. */
  function MaskFirstFlags(s: seq<DynEntry>): (r: seq<DynEntry>)
    ensures |r| == |s|
    decreases |s|
  {
    if s == [] then []
    else if IsFlags(s[0]) then [MaskEntry(s[0])] + s[1..]
    else [s[0]] + MaskFirstFlags(s[1..])
  }

  /** Masking changes no tag and no kind of entry. */
  lemma {:induction false} MaskKeepsTags(s: seq<DynEntry>)
    ensures forall i :: 0 <= i < |s| ==>
              MaskFirstFlags(s)[i].tag == s[i].tag && MaskFirstFlags(s)[i].Integer? == s[i].Integer?
    decreases |s|
  {
    if s != [] && !IsFlags(s[0]) {
      MaskKeepsTags(s[1..]);
    }
  }

  /** Only the first integer `DT_FLAGS_1` entry changes: every entry before
      it and every entry after it is as it was. */
  lemma {:induction false} OnlyFirstFlagsMasked(s: seq<DynEntry>, k: nat)
    requires k < |s| && IsFlags(s[k]) && forall j :: 0 <= j < k ==> !IsFlags(s[j])
    ensures MaskFirstFlags(s) == s[..k] + [MaskEntry(s[k])] + s[k + 1..]
    decreases k
  {
    if k > 0 {
      OnlyFirstFlagsMasked(s[1..], k - 1);
      assert s[..k] == [s[0]] + s[1..][..k - 1];
      assert s[k + 1..] == s[1..][k..];
    }
  }

  /** Without an integer `DT_FLAGS_1` entry nothing changes. */
  lemma {:induction false} NoFlagsUnchanged(s: seq<DynEntry>)
    requires forall j :: 0 <= j < |s| ==> !IsFlags(s[j])
    ensures MaskFirstFlags(s) == s
    decreases |s|
  {
    if s != [] {
      NoFlagsUnchanged(s[1..]);
    }
  }

  /** Masking twice is masking once. */
  lemma {:induction false} MaskIdempotent(s: seq<DynEntry>)
    ensures MaskFirstFlags(MaskFirstFlags(s)) == MaskFirstFlags(s)
    decreases |s|
  {
    if s != [] {
      if IsFlags(s[0]) {
        var m := MaskFirstFlags(s);
        assert m[1..] == s[1..];
        assert (s[0].val & SupportedFlags) & SupportedFlags == s[0].val & SupportedFlags;
      } else {
        MaskIdempotent(s[1..]);
        assert MaskFirstFlags(s)[1..] == MaskFirstFlags(s[1..]);
      }
    }
  }

  /** What `process_elf` leaves in one dynamic section. */
  function Clean(s: seq<DynEntry>, aarch64: bool): seq<DynEntry> {
    MaskFirstFlags(Retained(s, aarch64))
  }

  /** After cleaning, no search-path entry remains, and on AArch64 no
      AArch64 entry either. */
  lemma CleanRemoves(s: seq<DynEntry>, aarch64: bool)
    ensures var r := Clean(s, aarch64);
            forall i :: 0 <= i < |r| ==> Keep(r[i], aarch64)
    ensures var r := Clean(s, aarch64);
            forall i :: 0 <= i < |r| ==> r[i].tag != DT_RPATH && r[i].tag != DT_RUNPATH
    ensures var r := Clean(s, aarch64);
            aarch64 ==> forall i :: 0 <= i < |r| ==>
              !AArch64Tag(r[i].tag)
  {
    RetainedOnlyKept(s, aarch64);
    MaskKeepsTags(Retained(s, aarch64));
  }

  /** On another machine the AArch64 tags are kept like any other. */
  lemma OtherMachinesKeepAArch64Tags(s: seq<DynEntry>, e: DynEntry)
    requires e in s && AArch64Tag(e.tag)
    ensures e in Retained(s, false)
  {
    RetainedKeeps(s, false, e);
  }

  /** Cleaning a cleaned section changes nothing. */
  lemma CleanIdempotent(s: seq<DynEntry>, aarch64: bool)
    ensures Clean(Clean(s, aarch64), aarch64) == Clean(s, aarch64)
  {
    var t := Retained(s, aarch64);
    CleanRemoves(s, aarch64);
    RetainedAllKept(MaskFirstFlags(t), aarch64);
    MaskIdempotent(t);
  }

  /** `Vec::retain` in place on the first `n` slots of `a`: the kept entries
      are moved down, in order, and their number is returned. */
  method RetainSupported(a: array<DynEntry>, aarch64: bool) returns (n: nat)
    modifies a
    ensures n <= a.Length
    ensures a[..n] == Retained(old(a[..]), aarch64)
  {
    ghost var s := a[..];
    n := 0;
    var i := 0;
    while i < a.Length
      invariant n <= i <= a.Length
      invariant a[..n] == Retained(s[..i], aarch64)
      invariant forall j :: i <= j < a.Length ==> a[j] == s[j]
    {
      RetainedStep(s, i, aarch64);
      ghost var kept := a[..n];
      if Keep(a[i], aarch64) {
        a[n] := a[i];
        assert a[..n + 1] == kept + [s[i]];
        n := n + 1;
      }
      i := i + 1;
    }
    assert s[..i] == s;
  }

  /** The masking loop over the first `n` slots of `a`. */
  method MaskFlags(a: array<DynEntry>, n: nat)
    requires n <= a.Length
    modifies a
    ensures a[..n] == MaskFirstFlags(old(a[..n]))
    ensures a[n..] == old(a[n..])
  {
    ghost var s := a[..n];
    var i := 0;
    while i < n
      invariant i <= n
      invariant a[..] == old(a[..])
      invariant forall j :: 0 <= j < i ==> !IsFlags(s[j])
    {
      var e := a[i];
      if e.Integer? && e.tag == DT_FLAGS_1 {
        var newFlags := e.val & SupportedFlags;
        if newFlags != e.val {
          a[i] := e.(val := newFlags);
        }
        OnlyFirstFlagsMasked(s, i);
        assert a[..n] == s[..i] + [MaskEntry(s[i])] + s[i + 1..];
        return;
      }
      i := i + 1;
    }
    NoFlagsUnchanged(s);
  }

  /** One dynamic section as `process_elf` rewrites it. */
  method CleanDynamic(entries: seq<DynEntry>, aarch64: bool) returns (r: seq<DynEntry>)
    ensures r == Clean(entries, aarch64)
  {
    var a := new DynEntry[|entries|](i requires 0 <= i < |entries| => entries[i]);
    assert a[..] == entries;
    var n := RetainSupported(a, aarch64);
    MaskFlags(a, n);
    r := a[..n];
  }

  /** A section after processing: a dynamic one cleaned, any other as it was. */
  function ProcessedSection(d: SectionData, aarch64: bool): (r: SectionData)
    ensures r.Dynamic? <==> d.Dynamic?
  {
    match d
    case Dynamic(entries) => Dynamic(Clean(entries, aarch64))
    case Other(_) => d
  }

  /** The sections loop of `process_elf`, for a binary whose `e_machine` is
      `machine`. */
  method ProcessSections(sections: array<SectionData>, machine: int)
    modifies sections
    ensures forall i :: 0 <= i < sections.Length ==>
              sections[i] == ProcessedSection(old(sections[i]), machine == EM_AARCH64)
  {
    var aarch64 := machine == EM_AARCH64;
    var i := 0;
    while i < sections.Length
      invariant i <= sections.Length
      invariant forall j :: 0 <= j < i ==> sections[j] == ProcessedSection(old(sections[j]), aarch64)
      invariant forall j :: i <= j < sections.Length ==> sections[j] == old(sections[j])
    {
      if sections[i].Dynamic? {
        var cleaned := CleanDynamic(sections[i].entries, aarch64);
        sections[i] := Dynamic(cleaned);
      }
      i := i + 1;
    }
  }

  /** Sections that are not dynamic are left alone, and processing a
      processed section changes nothing. */
  lemma ProcessedSectionFixed(d: SectionData, aarch64: bool)
    ensures d.Other? ==> ProcessedSection(d, aarch64) == d
    ensures ProcessedSection(ProcessedSection(d, aarch64), aarch64) == ProcessedSection(d, aarch64)
  {
    if d.Dynamic? {
      CleanIdempotent(d.entries, aarch64);
    }
  }
}
