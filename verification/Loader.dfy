/** LoadMachOKernel (boot/efi/efiloader.c): the direct maps of the first 4 GiB and the kernel's segments. */
module Loader {
  import opened PageTable
  import opened PhysMem

  const FOUR_GIB: int := 0x1_0000_0000
  const HHDM_BASE: Word := 0xffff_8000_0000_0000
  /** The higher-half direct map in the 48 address bits that translation uses. */
  const HHDM: int := 0x8000_0000_0000

  /** An LC_SEGMENT_64 command with the physical pages the firmware gives it. */
  datatype Segment = Segment(vmaddr: Word, vmsize: Word, fileoff: nat, filesize: nat, phys: Phys) {
    predicate Loaded() { vmsize != 0 && vmaddr >= 0x1000 }

    function Base(): Virt { vmaddr % VSIZE }

    /** vmsize rounded up to whole pages. */
    function Span(): int { (vmsize + 0xfff) / PAGE * PAGE }

    /** What the loader expects of a segment: whole pages, inside one half of the address space,
        clear of both direct maps, backed by its part of the file. */
    predicate Fits(file: seq<Byte>) {
      && vmaddr % PAGE == 0 && phys % PAGE == 0
      && Base() + Span() <= VSIZE && phys + Span() <= PSIZE
      && filesize <= vmsize && fileoff + filesize <= |file|
      && FOUR_GIB <= Base() && (Base() + Span() <= HHDM || HHDM + FOUR_GIB <= Base())
    }

    /** Table pages that mapping the segment may take. */
    function Need(): nat { if Loaded() then 3 * ((vmsize + 0xfff) / PAGE) else 0 }

    predicate Covers(w: int) { Loaded() && Base() <= w < Base() + Span() }

    predicate Holds(a: int) { Loaded() && phys <= a < phys + vmsize }

    /** The byte that belongs at physical address a of the segment. */
    function ByteAt(file: seq<Byte>, a: int): Byte
      requires Holds(a) && fileoff + filesize <= |file|
    {
      if a - phys < filesize then file[fileoff + a - phys] else 0
    }
  }

  predicate AllFit(file: seq<Byte>, segs: seq<Segment>) {
    forall i :: 0 <= i < |segs| && segs[i].Loaded() ==> segs[i].Fits(file)
  }

  function Need(segs: seq<Segment>, n: nat): nat
    requires n <= |segs|
  {
    if n == 0 then 0 else Need(segs, n - 1) + segs[n - 1].Need()
  }

  // ---------------------------------------------------------------- the intended flat map

  function DirectMap(w: Virt): Translation {
    if w < FOUR_GIB then Large(w, true) else if HHDM <= w < HHDM + FOUR_GIB then Large(w - HHDM, true) else NotMapped
  }

  /** The direct maps, overlaid by the first n segments. */
  function FlatMap(segs: seq<Segment>, n: nat, w: Virt): Translation
    requires n <= |segs|
  {
    if n == 0 then DirectMap(w)
    else if segs[n - 1].Covers(w) then Small(segs[n - 1].phys + (w - segs[n - 1].Base()), true)
    else FlatMap(segs, n - 1, w)
  }

  lemma {:induction false} LargeIsDirect(segs: seq<Segment>, n: nat, w: Virt)
    requires n <= |segs| && DirectMap(w) == NotMapped
    ensures !FlatMap(segs, n, w).Large?
  {
    if n > 0 { LargeIsDirect(segs, n - 1, w); }
  }

  /** In the flat map, direct-mapped addresses keep their frame when every segment stays clear of them. */
  lemma {:induction false} DirectMapKept(file: seq<Byte>, segs: seq<Segment>, n: nat, w: Virt)
    requires n <= |segs| && AllFit(file, segs) && DirectMap(w).Large?
    ensures FlatMap(segs, n, w) == DirectMap(w)
  {
    if n > 0 { DirectMapKept(file, segs, n - 1, w); }
  }

  ghost predicate Apart(segs: seq<Segment>) {
    forall i, j, w :: 0 <= i < j < |segs| ==> !(segs[i].Covers(w) && segs[j].Covers(w))
  }

  lemma {:induction false} SegmentMapped(segs: seq<Segment>, n: nat, i: nat, w: Virt)
    requires i < n <= |segs| && Apart(segs) && segs[i].Covers(w)
    ensures FlatMap(segs, n, w) == Small(segs[i].phys + (w - segs[i].Base()), true)
  {
    if i < n - 1 {
      SegmentMapped(segs, n - 1, i, w);
    }
  }

  // ---------------------------------------------------------------- arithmetic of pages

  lemma PieceOf(v: int, w: int, size: int)
    requires size > 0 && v % size == 0
    ensures w / size == v / size <==> v <= w < v + size
    ensures v <= w < v + size ==> w % size == w - v
  {
    var k := v / size;
    if v <= w < v + size {
      Quotient(k, w - v, size);
    }
    if w / size == k {
      assert w == k * size + w % size;
    }
  }

  lemma SpanFacts(s: Segment)
    ensures s.vmsize <= s.Span() < s.vmsize + PAGE && s.Span() % PAGE == 0
  {
  }

  lemma SpanReached(s: Segment, offset: int)
    requires offset % PAGE == 0 && s.vmsize <= offset <= s.Span()
    ensures offset == s.Span()
  {
    SpanFacts(s);
  }

  lemma SegmentAddress(s: Segment, file: seq<Byte>, offset: int)
    requires s.Fits(file) && 0 <= offset < s.vmsize && offset % PAGE == 0
    ensures s.vmaddr + offset < 0x1_0000_0000_0000_0000
    ensures (s.vmaddr + offset) % VSIZE == s.Base() + offset && (s.Base() + offset) % PAGE == 0
    ensures s.phys + offset < PSIZE && (s.phys + offset) % PAGE == 0
  {
    SpanFacts(s);
    var q := s.vmaddr / VSIZE;
    Quotient(q, s.Base() + offset, VSIZE);
    assert q < 0x1_0000;
    var k := s.vmaddr / PAGE;
    assert s.Base() + offset == (k - q * 0x10_0000_0000 + offset / PAGE) * PAGE + 0;
    Quotient(k - q * 0x10_0000_0000 + offset / PAGE, 0, PAGE);
    Quotient(s.phys / PAGE + offset / PAGE, 0, PAGE);
  }

  // ---------------------------------------------------------------- the loops

  /** The direct maps when low bytes of the first and high bytes of the second are done. */
  function Direct(low: int, high: int, w: Virt): Translation {
    if w < low then Large(w, true) else if HHDM <= w < HHDM + high then Large(w - HHDM, true) else NotMapped
  }

  lemma LowStep(i: Phys, w: Virt)
    requires i % PAGE_2M == 0 && i < FOUR_GIB
    ensures Remapped(Direct(i, 0, w), PAGE_2M, i % VSIZE, Large(i - i % PAGE_2M + w % PAGE_2M, true), w)
            == Direct(i + PAGE_2M, 0, w)
  {
    Quotient(0, i, VSIZE);
    PieceOf(i, w, PAGE_2M);
  }

  lemma HighStep(i: Phys, w: Virt)
    requires i % PAGE_2M == 0 && i < FOUR_GIB
    ensures Remapped(Direct(FOUR_GIB, i, w), PAGE_2M, (HHDM_BASE + i) % VSIZE,
            Large(i - i % PAGE_2M + w % PAGE_2M, true), w)
            == Direct(FOUR_GIB, i + PAGE_2M, w)
  {
    Quotient(0xffff, HHDM + i, VSIZE);
    Quotient(i / PAGE_2M + HHDM / PAGE_2M, 0, PAGE_2M);
    PieceOf(HHDM + i, w, PAGE_2M);
  }

  lemma StepAligned(i: int, size: int)
    requires size > 0 && i % size == 0
    ensures (i + size) % size == 0
  {
    Quotient(i / size + 1, 0, size);
  }

  lemma BelowFourGib(i: int)
    requires i % PAGE_2M == 0 && i < FOUR_GIB
    ensures i + PAGE_2M <= FOUR_GIB
  {
  }

  /** The identity map of the first 4 GiB, in 2 MiB steps. */
  method MapIdentity(m: Mapper) returns (ok: bool)
    requires m.Valid() && forall w: Virt :: m.Translate(w) == Direct(0, 0, w)
    modifies m
    ensures m.Valid() && (ok ==> forall w: Virt :: m.Translate(w) == Direct(FOUR_GIB, 0, w))
    ensures SameOutside(m.pool, old(m.mem), m.mem)
    ensures (!ok ==> old(|m.supply|) < 4096) && |m.supply| + 4096 >= old(|m.supply|)
  {
    hide Mapper.Translate, Mapper.Valid, Remapped, Direct, SameOutside;
    SameOutsideSelf(m.pool, m.mem);
    ok := true;
    var i: Phys := 0;
    ghost var n := 0;
    while i < FOUR_GIB
      invariant SameOutside(m.pool, old(m.mem), m.mem)
      invariant i % PAGE_2M == 0 && i == n * PAGE_2M && i <= FOUR_GIB && m.Valid()
                && |m.supply| + 2 * n >= old(|m.supply|)
      invariant forall w: Virt :: m.Translate(w) == Direct(i, 0, w)
    {
      ghost var was := m.mem;
      ok := m.MapPage2M(i, i);
      SameOutsideTwice(m.pool, old(m.mem), was, m.mem);
      if !ok { return; }
      forall w: Virt ensures m.Translate(w) == Direct(i + PAGE_2M, 0, w) { LowStep(i, w); }
      StepAligned(i, PAGE_2M);
      BelowFourGib(i);
      i, n := i + PAGE_2M, n + 1;
    }
  }

  /** The higher-half direct map of the same memory. */
  method MapHigherHalf(m: Mapper) returns (ok: bool)
    requires m.Valid() && forall w: Virt :: m.Translate(w) == Direct(FOUR_GIB, 0, w)
    modifies m
    ensures m.Valid() && (ok ==> forall w: Virt :: m.Translate(w) == DirectMap(w))
    ensures SameOutside(m.pool, old(m.mem), m.mem)
    ensures (!ok ==> old(|m.supply|) < 4096) && |m.supply| + 4096 >= old(|m.supply|)
  {
    hide Mapper.Translate, Mapper.Valid, Remapped, SameOutside;
    SameOutsideSelf(m.pool, m.mem);
    ok := true;
    var i: Phys := 0;
    ghost var n := 0;
    while i < FOUR_GIB
      invariant SameOutside(m.pool, old(m.mem), m.mem)
      invariant i % PAGE_2M == 0 && i == n * PAGE_2M && i <= FOUR_GIB && m.Valid()
                && |m.supply| + 2 * n >= old(|m.supply|)
      invariant forall w: Virt :: m.Translate(w) == Direct(FOUR_GIB, i, w)
    {
      ghost var was := m.mem;
      ok := m.MapPage2M(HHDM_BASE + i, i);
      SameOutsideTwice(m.pool, old(m.mem), was, m.mem);
      if !ok { return; }
      forall w: Virt ensures m.Translate(w) == Direct(FOUR_GIB, i + PAGE_2M, w) { HighStep(i, w); }
      StepAligned(i, PAGE_2M);
      BelowFourGib(i);
      i, n := i + PAGE_2M, n + 1;
    }
  }

  /** The first n segments and the first offset bytes of the next one. */
  function Overlaid(segs: seq<Segment>, n: nat, s: Segment, offset: int, w: Virt): Translation
    requires n <= |segs|
  {
    if s.Base() <= w < s.Base() + offset then Small(s.phys + (w - s.Base()), true) else FlatMap(segs, n, w)
  }

  lemma OverlayStep(segs: seq<Segment>, n: nat, s: Segment, file: seq<Byte>, offset: int, w: Virt)
    requires n <= |segs| && s.Fits(file) && 0 <= offset < s.vmsize && offset % PAGE == 0
    ensures var p := s.phys + offset;
            Remapped(Overlaid(segs, n, s, offset, w), PAGE, (s.vmaddr + offset) % VSIZE,
                Small(p - p % PAGE + w % PAGE, true),
                w)
            == Overlaid(segs, n, s, offset + PAGE, w)
  {
    SegmentAddress(s, file, offset);
    PieceOf(s.Base() + offset, w, PAGE);
  }

  lemma SpanStep(s: Segment, offset: int)
    requires offset % PAGE == 0 && 0 <= offset < s.vmsize
    ensures offset + PAGE <= s.Span()
  {
  }

  /** Map every page of one segment over what was mapped before. */
  method MapSegment(m: Mapper, s: Segment, ghost file: seq<Byte>, ghost segs: seq<Segment>, ghost n: nat)
      returns (ok: bool)
    requires m.Valid() && s.Fits(file) && s.Loaded() && n < |segs| && segs[n] == s
    requires forall w: Virt :: m.Translate(w) == FlatMap(segs, n, w)
    modifies m
    ensures m.Valid() && (ok ==> forall w: Virt :: m.Translate(w) == FlatMap(segs, n + 1, w))
    ensures SameOutside(m.pool, old(m.mem), m.mem)
    ensures (!ok ==> old(|m.supply|) < s.Need()) && |m.supply| + s.Need() >= old(|m.supply|)
  {
    hide Mapper.Translate, Mapper.Valid, Remapped, SameOutside;
    SameOutsideSelf(m.pool, m.mem);
    ok := true;
    var offset := 0;
    ghost var pages := 0;
    SpanFacts(s);
    while offset < s.vmsize
      invariant SameOutside(m.pool, old(m.mem), m.mem)
      invariant 0 <= offset <= s.Span() && offset == pages * PAGE && offset % PAGE == 0 && m.Valid()
                && |m.supply| + 3 * pages >= old(|m.supply|)
      invariant forall w: Virt :: m.Translate(w) == Overlaid(segs, n, s, offset, w)
    {
      ghost var was := m.mem;
      ok := MapOne(m, s, file, segs, n, offset);
      SameOutsideTwice(m.pool, old(m.mem), was, m.mem);
      if !ok { return; }
      StepAligned(offset, PAGE);
      SpanStep(s, offset);
      offset, pages := offset + PAGE, pages + 1;
    }
    SpanReached(s, offset);
  }

  method MapOne(m: Mapper, s: Segment, ghost file: seq<Byte>, ghost segs: seq<Segment>, ghost n: nat, offset: nat)
      returns (ok: bool)
    requires m.Valid() && s.Fits(file) && n <= |segs| && offset < s.vmsize && offset % PAGE == 0
    requires forall w: Virt :: m.Translate(w) == Overlaid(segs, n, s, offset, w)
    modifies m
    ensures m.Valid() && (ok ==> forall w: Virt :: m.Translate(w) == Overlaid(segs, n, s, offset + PAGE, w))
    ensures SameOutside(m.pool, old(m.mem), m.mem)
    ensures (!ok ==> old(|m.supply|) < 3) && |m.supply| + 3 >= old(|m.supply|)
  {
    hide Mapper.Translate, Mapper.Valid, SameOutside, Overlaid, Remapped, FlatMap;
    SegmentAddress(s, file, offset);
    NotLargeBefore(segs, n, s, file, offset);
    ok := m.MapPage(s.vmaddr + offset, s.phys + offset);
    forall w: Virt ensures ok ==> m.Translate(w) == Overlaid(segs, n, s, offset + PAGE, w) {
      OverlayStep(segs, n, s, file, offset, w);
    }
  }

  lemma NotLargeBefore(segs: seq<Segment>, n: nat, s: Segment, file: seq<Byte>, offset: nat)
    requires s.Fits(file) && n <= |segs| && offset < s.vmsize && offset % PAGE == 0
    ensures (s.vmaddr + offset) % VSIZE == s.Base() + offset < VSIZE
            && !Overlaid(segs, n, s, offset, s.Base() + offset).Large?
  {
    SegmentAddress(s, file, offset);
    SpanStep(s, offset);
    LargeIsDirect(segs, n, s.Base() + offset);
  }

  // ---------------------------------------------------------------- physical memory

  /** The firmware gives no byte to two segments. */
  ghost predicate Separate(segs: seq<Segment>) {
    forall i, j, a :: 0 <= i < j < |segs| ==> !(segs[i].Holds(a) && segs[j].Holds(a))
  }

  /** Nor to a segment and a page table. */
  ghost predicate Clear(pages: set<Phys>, segs: seq<Segment>) {
    forall i, a :: 0 <= i < |segs| && segs[i].Holds(a) ==> !Inside(pages, a)
  }

  /** The bytes of the first n segments are in place, and outside the given pages no others have changed. */
  ghost predicate Filled(file: seq<Byte>, segs: seq<Segment>, n: nat, pages: set<Phys>, before: Memory, mem: Memory)
    requires n <= |segs| && AllFit(file, segs)
  {
    && (forall i, a :: 0 <= i < n && segs[i].Holds(a) ==> mem(a) == segs[i].ByteAt(file, a))
    && (forall a :: mem(a) == before(a) || Inside(pages, a) || exists i :: 0 <= i < n && segs[i].Holds(a))
  }

  lemma FillStep(file: seq<Byte>, segs: seq<Segment>, n: nat, pages: set<Phys>, before: Memory, mem: Memory,
                 mem': Memory)
    requires n < |segs| && AllFit(file, segs) && Separate(segs) && Filled(file, segs, n, pages, before, mem)
    requires forall a :: mem'(a) == if segs[n].Holds(a) then segs[n].ByteAt(file, a) else mem(a)
    ensures Filled(file, segs, n + 1, pages, before, mem')
  {
    hide Inside;
    forall a ensures mem'(a) == before(a) || Inside(pages, a) || exists i :: 0 <= i < n + 1 && segs[i].Holds(a) {
      if segs[n].Holds(a) {
      } else if mem(a) != before(a) && !Inside(pages, a) {
        var i :| 0 <= i < n && segs[i].Holds(a);
      }
    }
  }

  /** Writing page tables disturbs no segment. */
  lemma FilledStays(file: seq<Byte>, segs: seq<Segment>, n: nat, pages: set<Phys>, before: Memory, mem: Memory,
                    mem': Memory)
    requires n <= |segs| && AllFit(file, segs) && Clear(pages, segs) && Filled(file, segs, n, pages, before, mem)
    requires SameOutside(pages, mem, mem')
    ensures Filled(file, segs, n, pages, before, mem')
  {
    hide Inside;
  }

  /** Everything the kernel relies on when it starts: one memory, in which the processor finds tables
      that translate as the flat map, and the segments' bytes. */
  ghost predicate KernelReady(m: Mapper, file: seq<Byte>, segs: seq<Segment>, before: Memory)
    requires AllFit(file, segs)
    reads m
  {
    && m.Valid()
    && (forall w: Virt :: m.Translate(w) == FlatMap(segs, |segs|, w))
    && Filled(file, segs, |segs|, m.pool, before, m.mem)
  }

  /** Clear a segment's memory and copy in its part of the file; the page tables are not there. */
  method PlaceSegment(m: Mapper, file: seq<Byte>, seg: Segment)
    requires m.Valid() && seg.Fits(file) && seg.Loaded() && Clear(m.pool, [seg])
    modifies m`mem
    ensures m.Valid() && forall w: Virt :: m.Translate(w) == old(m.Translate(w))
    ensures forall a :: m.mem(a) == if seg.Holds(a) then seg.ByteAt(file, a) else old(m.mem)(a)
  {
    m.AllTranslated();
    var mem := Memset(m.mem, seg.phys, seg.vmsize);
    if seg.filesize > 0 {
      mem := Memcpy(mem, seg.phys, file[seg.fileoff..seg.fileoff + seg.filesize]);
    }
    SegmentSpares(m, file, seg, mem);
    SparedBacked(m.mem, mem, m.tables);
    hide Mapper.Translate, Tree, Backed, Inside, SupplyFits;
    m.mem := mem;
    m.AllTranslated();
  }

  lemma SegmentSpares(m: Mapper, file: seq<Byte>, seg: Segment, mem: Memory)
    requires m.tables.Keys <= m.pool && seg.Fits(file) && Clear(m.pool, [seg])
    requires forall a :: mem(a) == if seg.Holds(a) then seg.ByteAt(file, a) else m.mem(a)
    ensures forall a :: Inside(m.tables.Keys, a) ==> mem(a) == m.mem(a)
  {
    forall a | Inside(m.tables.Keys, a) ensures mem(a) == m.mem(a) {
      assert Inside(m.pool, a);
      assert [seg][0].Holds(a) ==> false;
    }
  }

  ghost function Pages(supply: seq<Phys>): set<Phys> { set x | x in supply }

  method MapDirect(supply: seq<Phys>, before: Memory) returns (m: Mapper?)
    requires forall i :: 0 <= i < |supply| ==> supply[i] % PAGE == 0
    requires forall i, j :: 0 <= i < j < |supply| ==> supply[i] != supply[j]
    ensures m != null ==> fresh(m) && m.Valid() && forall w: Virt :: m.Translate(w) == DirectMap(w)
    ensures m != null ==> m.pool == Pages(supply) && SameOutside(m.pool, before, m.mem)
    ensures if m == null then |supply| < 8193 else |m.supply| + 8193 >= |supply|
  {
    if supply == [] { return null; }
    var mapper := new Mapper(before, supply[0], supply[1..]);
    assert mapper.pool == Pages(supply) by {
      assert supply == [supply[0]] + supply[1..];
    }
    ghost var mem0 := mapper.mem;
    hide Mapper.Translate, Mapper.Valid, SameOutside;
    var ok := MapIdentity(mapper);
    SameOutsideTwice(mapper.pool, before, mem0, mapper.mem);
    if !ok { return null; }
    ghost var mem1 := mapper.mem;
    ok := MapHigherHalf(mapper);
    SameOutsideTwice(mapper.pool, before, mem1, mapper.mem);
    m := if ok then mapper else null;
  }

  lemma SkippedSegment(file: seq<Byte>, segs: seq<Segment>, n: nat, pages: set<Phys>, before: Memory, mem: Memory)
    requires n < |segs| && AllFit(file, segs) && !segs[n].Loaded() && Filled(file, segs, n, pages, before, mem)
    ensures Filled(file, segs, n + 1, pages, before, mem)
    ensures forall w: Virt :: FlatMap(segs, n + 1, w) == FlatMap(segs, n, w)
  {
  }

  lemma NothingMapped(segs: seq<Segment>)
    ensures forall w: Virt :: FlatMap(segs, 0, w) == DirectMap(w)
  {
  }

  lemma NothingFilled(file: seq<Byte>, segs: seq<Segment>, pages: set<Phys>, before: Memory, mem: Memory)
    requires AllFit(file, segs) && SameOutside(pages, before, mem)
    ensures Filled(file, segs, 0, pages, before, mem)
  {
    hide Inside;
  }

  lemma {:induction false} NeedGrows(segs: seq<Segment>, n: nat)
    requires n <= |segs|
    ensures Need(segs, n) <= Need(segs, |segs|)
    decreases |segs| - n
  {
    if n < |segs| { NeedGrows(segs, n + 1); }
  }

  /** Set up both direct maps, then place and map every segment. */
  method LoadMachOKernel(supply: seq<Phys>, file: seq<Byte>, segs: seq<Segment>, before: Memory) returns (m: Mapper?)
    requires AllFit(file, segs) && Separate(segs) && Clear(Pages(supply), segs)
    requires forall i :: 0 <= i < |supply| ==> supply[i] % PAGE == 0
    requires forall i, j :: 0 <= i < j < |supply| ==> supply[i] != supply[j]
    ensures m != null ==> fresh(m) && m.pool == Pages(supply) && KernelReady(m, file, segs, before)
    ensures m == null ==> |supply| < 8193 + Need(segs, |segs|)
  {
    hide Mapper.Translate, Mapper.Valid, Separate, Clear, Filled, FlatMap, SameOutside, Pages;
    var mapper := MapDirect(supply, before);
    if mapper == null { return null; }
    NothingFilled(file, segs, mapper.pool, before, mapper.mem);
    NothingMapped(segs);
    for i := 0 to |segs|
      invariant mapper.Valid() && forall w: Virt :: mapper.Translate(w) == FlatMap(segs, i, w)
      invariant Filled(file, segs, i, mapper.pool, before, mapper.mem)
                && |mapper.supply| + Need(segs, i) + 8193 >= |supply|
    {
      var seg := segs[i];
      if seg.vmsize == 0 || seg.vmaddr < 0x1000 {
        SkippedSegment(file, segs, i, mapper.pool, before, mapper.mem);
        continue;
      }
      NeedGrows(segs, i + 1);
      var ok := LoadSegment(mapper, file, segs, i, before);
      if !ok { return null; }
    }
    m := mapper;
  }

  /** Place one segment and map it. */
  method LoadSegment(m: Mapper, file: seq<Byte>, segs: seq<Segment>, i: nat, ghost before: Memory) returns (ok: bool)
    requires m.Valid() && i < |segs| && AllFit(file, segs) && Separate(segs) && Clear(m.pool, segs) && segs[i].Loaded()
    requires (forall w: Virt :: m.Translate(w) == FlatMap(segs, i, w)) && Filled(file, segs, i, m.pool, before, m.mem)
    modifies m
    ensures m.Valid() && (ok ==> forall w: Virt :: m.Translate(w) == FlatMap(segs, i + 1, w))
    ensures Filled(file, segs, i + 1, m.pool, before, m.mem)
    ensures (!ok ==> old(|m.supply|) < segs[i].Need()) && |m.supply| + segs[i].Need() >= old(|m.supply|)
  {
    hide Mapper.Translate, Mapper.Valid, Separate, Filled, FlatMap, SameOutside;
    ghost var was := m.mem;
    PlaceSegment(m, file, segs[i]);
    FillStep(file, segs, i, m.pool, before, was, m.mem);
    ghost var placed := m.mem;
    ok := MapSegment(m, segs[i], file, segs, i);
    FilledStays(file, segs, i + 1, m.pool, before, placed, m.mem);
  }

  // ---------------------------------------------------------------- what the kernel sees

  /** The kernel can write to every address that is mapped, and exactly the direct maps and the
      segments are. */
  lemma AllWritable(m: Mapper, file: seq<Byte>, segs: seq<Segment>, before: Memory, w: Virt)
    requires AllFit(file, segs) && KernelReady(m, file, segs, before)
    ensures m.Translate(w) != NotMapped ==> m.Translate(w).writable
    ensures m.Translate(w) != NotMapped <==>
            w < 0x1_0000_0000 || 0x8000_0000_0000 <= w < 0x8001_0000_0000
            || exists i :: 0 <= i < |segs| && InPages(segs[i], w)
  {
    hide Mapper.Translate, Mapper.Valid, Filled;
    FlatWritable(segs, |segs|, w);
    forall i | 0 <= i < |segs| ensures InPages(segs[i], w) <==> segs[i].Covers(w) {}
  }

  /** A segment that is not empty nor below the first page has w in its pages. */
  predicate InPages(s: Segment, w: int) {
    s.vmsize != 0 && s.vmaddr >= 0x1000 &&
    var base := s.vmaddr % 0x1_0000_0000_0000;
    base <= w < base + (s.vmsize + 0xfff) / 0x1000 * 0x1000
  }

  lemma {:induction false} FlatWritable(segs: seq<Segment>, n: nat, w: Virt)
    requires n <= |segs|
    ensures FlatMap(segs, n, w) != NotMapped ==> FlatMap(segs, n, w).writable
    ensures FlatMap(segs, n, w) != NotMapped <==>
            w < FOUR_GIB || HHDM <= w < HHDM + FOUR_GIB || exists i :: 0 <= i < n && segs[i].Covers(w)
  {
    if n > 0 { FlatWritable(segs, n - 1, w); }
  }

  /** Addresses below 4 GiB are themselves and their higher-half aliases reach the same frame. */
  lemma DirectView(m: Mapper, file: seq<Byte>, segs: seq<Segment>, before: Memory, w: Virt)
    requires AllFit(file, segs) && KernelReady(m, file, segs, before) && w < 0x1_0000_0000
    ensures m.Translate(w) == Large(w, true) == m.Translate(0x8000_0000_0000 + w)
  {
    hide Mapper.Translate, Mapper.Valid, Filled;
    DirectMapKept(file, segs, |segs|, w);
    DirectMapKept(file, segs, |segs|, HHDM + w);
  }

  /** Byte k of a segment, read through the tables in memory, is its file byte, or zero past the
      file's part. */
  lemma SegmentView(m: Mapper, file: seq<Byte>, segs: seq<Segment>, before: Memory, i: nat, k: nat)
    requires AllFit(file, segs) && Apart(segs) && KernelReady(m, file, segs, before)
    requires i < |segs| && segs[i].vmaddr >= 0x1000 && k < segs[i].vmsize
    ensures segs[i].Base() == segs[i].vmaddr % 0x1_0000_0000_0000 && segs[i].Base() + k < VSIZE
    ensures m.Translate(segs[i].Base() + k).Small? && m.Translate(segs[i].Base() + k).writable
    ensures m.mem(m.Translate(segs[i].Base() + k).pa) == if k < segs[i].filesize then file[segs[i].fileoff + k] else 0
  {
    hide Mapper.Translate, Mapper.Valid;
    var s := segs[i];
    assert s.Fits(file);
    SpanFacts(s);
    assert s.Holds(s.phys + k);
    SegmentMapped(segs, |segs|, i, s.Base() + k);
  }
}
