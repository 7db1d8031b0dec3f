/** Four-level page tables built by the boot loader (boot/efi/efiloader.c) and the translation
    the processor derives from them (Intel SDM volume 3A, section 4.5).

    Addresses and entries are 64-bit words.  A virtual address stands for its low 48 bits,
    the only ones that the index computations use. */
module PageTable {
  import opened PhysMem

  const PAGE: int := 0x1000
  const PAGE_2M: int := 0x20_0000
  const VSIZE: int := 0x1_0000_0000_0000
  const PSIZE: int := 0x10_0000_0000_0000

  type Virt = v: int | 0 <= v < VSIZE
  type Phys = p: int | 0 <= p < PSIZE
  type Word = x: int | 0 <= x < 0x1_0000_0000_0000_0000
  type Table = t: seq<Word> | |t| == 512 witness seq(512, _ => 0)

  /** The span of virtual memory below one entry of a level-l table (level 3 is the PML4). */
  function Unit(l: nat): int
    requires l <= 4
  {
    if l == 0 then 0x1000 else if l == 1 then 0x20_0000 else if l == 2 then 0x4000_0000
    else if l == 3 then 0x80_0000_0000 else VSIZE
  }

  function Idx(v: Virt, l: nat): (i: nat)
    requires l <= 3
    ensures i < 512
  {
    v / Unit(l) % 512
  }

  predicate Present(e: Word) { e % 2 == 1 }

  /** Bit 1, read/write. */
  predicate WriteBit(e: Word) { e / 2 % 2 == 1 }

  predicate LargeBit(e: Word) { e / 128 % 2 == 1 }

  /** Bits 51 to 12, the physical address in an entry. */
  function Frame(e: Word): Phys { e % PSIZE / PAGE * PAGE }

  /** paddr | PAGE_PRESENT | PAGE_RW */
  function SmallEntry(p: Phys): Word { p - p % 4 + 3 }

  /** paddr | PAGE_PRESENT | PAGE_RW | PAGE_PS */
  function LargeEntry(p: Phys): Word {
    if LargeBit(SmallEntry(p)) then SmallEntry(p) else SmallEntry(p) + 128
  }

  // ---------------------------------------------------------------- arithmetic of the bit fields

  lemma Quotient(a: int, r: int, u: int)
    requires 0 <= r < u
    ensures (a * u + r) / u == a && (a * u + r) % u == r
  {
    var x := a * u + r;
    QuotientUnique(x / u, x % u, a, r, u);
  }

  lemma QuotientUnique(a: int, r: int, b: int, s: int, u: int)
    requires 0 <= r < u && 0 <= s < u && a * u + r == b * u + s
    ensures a == b && r == s
  {
    if a < b { MultipleBelow(a, b, u); }
    if b < a { MultipleBelow(b, a, u); }
  }

  lemma MultipleBelow(a: int, b: int, u: int)
    requires a < b && u >= 0
    ensures a * u + u <= b * u
  {
    var n := b - a - 1;
    assert n * u >= 0;
    assert b * u == (a + 1 + n) * u == a * u + u + n * u;
  }

  lemma DropMultiple(m: int, s: int, n: int)
    requires n == 2 || n == 4 || n == 512
    ensures (m * n + s) % n == s % n
  {
  }

  lemma FieldOfLowBits(x: int, u: int, n: int, v: int)
    requires u > 0 && v > 0 && v == 512 * n * u
    ensures x / u % 512 == x % v / u % 512
  {
    var q, r := x / v, x % v;
    var s, t := r / u, r % u;
    assert q * v == (q * n * 512) * u;
    assert x == (q * n * 512 + s) * u + t;
    Quotient(q * n * 512 + s, t, u);
    DropMultiple(q * n, s, 512);
  }

  lemma LargeFrame(p: int)
    ensures p / PAGE * PAGE / PAGE_2M * PAGE_2M == p - p % PAGE_2M
  {
    var q, r := p / PAGE_2M, p % PAGE_2M;
    var s, t := r / PAGE, r % PAGE;
    assert p == (512 * q + s) * PAGE + t;
    Quotient(512 * q + s, t, PAGE);
    assert p / PAGE * PAGE == q * PAGE_2M + s * PAGE;
    Quotient(q, s * PAGE, PAGE_2M);
  }

  /** (vaddr >> shift) & 0x1FF is the index of the 48-bit address. */
  lemma IndexBits(vaddr: Word, l: nat)
    requires l <= 3
    ensures vaddr / Unit(l) % 512 == Idx(vaddr % VSIZE, l)
  {
    var n := if l == 0 then 0x800_0000 else if l == 1 then 0x4_0000 else if l == 2 then 512 else 1;
    FieldOfLowBits(vaddr, Unit(l), n, VSIZE);
  }

  lemma SmallEntryFacts(p: Phys)
    ensures Present(SmallEntry(p)) && Frame(SmallEntry(p)) == p - p % PAGE && SmallEntry(p) / PAGE == p / PAGE
    ensures SmallEntry(p) < PSIZE
  {
    var k, r := p / PAGE, p % PAGE;
    var s, t := r / 4, r % 4;
    Quotient(1024 * k + s, t, 4);
    assert p % 4 == t;
    assert SmallEntry(p) == (2 * (1024 * k + s) + 1) * 2 + 1;
    Quotient(2 * (1024 * k + s) + 1, 1, 2);
    assert SmallEntry(p) == k * PAGE + (4 * s + 3);
    Quotient(k, 4 * s + 3, PAGE);
    Quotient(0, SmallEntry(p), PSIZE);
  }

  lemma EntriesWritable(p: Phys)
    ensures WriteBit(SmallEntry(p)) && WriteBit(LargeEntry(p))
  {
    var q := p / 4;
    assert SmallEntry(p) == (2 * q + 1) * 2 + 1;
    Quotient(2 * q + 1, 1, 2);
    DropMultiple(q, 1, 2);
    assert SmallEntry(p) + 128 == (2 * (q + 32) + 1) * 2 + 1;
    Quotient(2 * (q + 32) + 1, 1, 2);
    DropMultiple(q + 32, 1, 2);
  }

  /** Masking off the low 12 bits gives the frame when the entry has no bits above it. */
  lemma PointerFrame(e: Word)
    requires e < PSIZE
    ensures Frame(e) == e - e % PAGE
  {
    Quotient(0, e, PSIZE);
  }

  lemma PointerEntry(c: Phys)
    requires c % PAGE == 0
    ensures Present(SmallEntry(c)) && !LargeBit(SmallEntry(c)) && Frame(SmallEntry(c)) == c && SmallEntry(c) < PSIZE
    ensures WriteBit(SmallEntry(c))
  {
    SmallEntryFacts(c);
    EntriesWritable(c);
    var k := c / PAGE;
    Quotient(1024 * k, 0, 4);
    assert SmallEntry(c) == (32 * k) * 128 + 3;
    Quotient(32 * k, 3, 128);
    Quotient(16 * k, 0, 2);
  }

  lemma LargeEntryFacts(p: Phys)
    ensures Present(LargeEntry(p)) && LargeBit(LargeEntry(p)) && WriteBit(LargeEntry(p))
    ensures Frame(LargeEntry(p)) / PAGE_2M * PAGE_2M == p - p % PAGE_2M
  {
    SmallEntryFacts(p);
    EntriesWritable(p);
    SetLargeBit(SmallEntry(p));
    Quotient(0, LargeEntry(p), PSIZE);
    LargeFrame(p);
  }

  lemma SetLargeBit(e: Word)
    requires e < PSIZE
    ensures !LargeBit(e) ==> e + 128 < PSIZE && LargeBit(e + 128) && (e + 128) / PAGE == e / PAGE
                             && (e + 128) % 2 == e % 2
  {
    var k, r := e / PAGE, e % PAGE;
    var a, b := r / 128, r % 128;
    assert e == (32 * k + a) * 128 + b;
    Quotient(32 * k + a, b, 128);
    DropMultiple(16 * k, a, 2);
    DropMultiple(64, e, 2);
    if !LargeBit(e) {
      assert a <= 30;
      assert e + 128 == k * PAGE + (r + 128);
      Quotient(k, r + 128, PAGE);
      assert e + 128 == (32 * k + a + 1) * 128 + b;
      Quotient(32 * k + a + 1, b, 128);
      DropMultiple(16 * k, a + 1, 2);
    }
  }

  predicate BitAt(x: nat, i: nat) { if i == 0 then x % 2 == 1 else BitAt(x / 2, i - 1) }

  function PowerOfTwo(k: nat): nat { if k == 0 then 1 else 2 * PowerOfTwo(k - 1) }

  lemma {:induction false} SetBit(e: nat, k: nat, i: nat)
    requires !BitAt(e, k)
    ensures BitAt(e + PowerOfTwo(k), i) <==> BitAt(e, i) || i == k
    decreases k
  {
    var e' := e + PowerOfTwo(k);
    if k == 0 {
      assert e' % 2 == 1 && e' / 2 == e / 2;
    } else {
      assert e' % 2 == e % 2 && e' / 2 == e / 2 + PowerOfTwo(k - 1);
      if i > 0 {
        SetBit(e / 2, k - 1, i - 1);
      }
    }
  }

  lemma BitSeven(x: nat)
    ensures BitAt(x, 7) <==> x / 128 % 2 == 1
  {
    var a := x / 2 / 2;
    var b := a / 2 / 2;
    var c := b / 2 / 2;
    assert BitAt(x, 7) == BitAt(a, 5) && BitAt(a, 5) == BitAt(b, 3) && BitAt(b, 3) == BitAt(c, 1);
    assert c / 2 == x / 128;
  }

  /** The entries stored are the address with exactly the present, read/write and, for 2 MiB
      pages, page-size bits set. */
  lemma EntryBits(p: Phys, i: nat)
    ensures BitAt(SmallEntry(p), i) <==> BitAt(p, i) || i in {0, 1}
    ensures BitAt(LargeEntry(p), i) <==> BitAt(p, i) || i in {0, 1, 7}
  {
    SmallBits(p, i);
    SmallBits(p, 7);
    var e := SmallEntry(p);
    BitSeven(e);
    if !LargeBit(e) {
      SetBit(e, 7, i);
      assert PowerOfTwo(7) == 128;
    }
  }

  lemma SmallBits(p: Phys, i: nat)
    ensures BitAt(SmallEntry(p), i) <==> BitAt(p, i) || i in {0, 1}
  {
    var q := p / 4;
    var e := SmallEntry(p);
    assert e == 4 * q + 3;
    assert e % 2 == 1 && e / 2 == 2 * q + 1 && e / 2 % 2 == 1 && e / 2 / 2 == q == p / 2 / 2;
    if i >= 2 {
      assert BitAt(e, i) == BitAt(e / 2 / 2, i - 2) && BitAt(p, i) == BitAt(p / 2 / 2, i - 2);
    }
  }

  // ---------------------------------------------------------------- the processor's walk

  /** Where an address is in physical memory, and whether it may be written. */
  datatype Translation = NotMapped | Small(pa: int, writable: bool) | Large(pa: int, writable: bool)

  /** What is found below an entry may be written only if the entry lets it. */
  function Below(e: Word, found: Translation): Translation {
    if found.NotMapped? then found else found.(writable := found.writable && WriteBit(e))
  }

  /** The walk from a level-l table. */
  function Walk(tabs: map<Phys, Table>, t: Phys, l: nat, v: Virt): Translation
    requires l <= 3
    decreases l
  {
    if t !in tabs then NotMapped
    else
      var e := tabs[t][Idx(v, l)];
      if !Present(e) then NotMapped
      else if l == 0 then Small(Frame(e) + v % PAGE, WriteBit(e))
      else if LargeBit(e) then if l == 1 then Large(Frame(e) / PAGE_2M * PAGE_2M + v % PAGE_2M, WriteBit(e))
           else NotMapped
      else Below(e, Walk(tabs, Frame(e), l - 1, v))
  }

  // ---------------------------------------------------------------- shape of the tables

  /** What a table page serves: its level and which region of virtual memory. */
  datatype Region = Region(level: nat, prefix: int)

  /** Every table page serves one region, and each entry that points to a table points to one
      that serves the part of the region below that entry and lets it be written: the tables form
      a tree. */
  ghost predicate Tree(tabs: map<Phys, Table>, regs: map<Phys, Region>, root: Phys) {
    && regs.Keys == tabs.Keys && root in tabs && regs[root] == Region(3, 0)
    && (forall t :: t in tabs ==> regs[t].level <= 3)
    && (forall t, i :: t in tabs && 0 <= i < 512 ==> EntryFits(tabs, regs, t, i))
  }

  ghost predicate EntryFits(tabs: map<Phys, Table>, regs: map<Phys, Region>, t: Phys, i: nat)
    requires t in tabs && regs.Keys == tabs.Keys && i < 512
  {
    var e, r := tabs[t][i], regs[t];
    Present(e) && r.level > 0 ==>
      if LargeBit(e) then r.level == 1
      else e < PSIZE && WriteBit(e) && Frame(e) in tabs && regs[Frame(e)] == Region(r.level - 1, r.prefix * 512 + i)
  }

  ghost predicate Serves(regs: map<Phys, Region>, t: Phys, l: nat, v: Virt)
    requires l <= 3
  {
    t in regs && regs[t] == Region(l, v / Unit(l + 1))
  }

  lemma PrefixSplit(v: Virt, l: nat)
    requires l <= 3
    ensures v / Unit(l) == v / Unit(l + 1) * 512 + Idx(v, l)
    ensures v / Unit(4) == 0
  {
    assert Unit(l + 1) == 512 * Unit(l);
  }

  /** The walk of v from u reaches table t at level m. */
  ghost predicate Leads(tabs: map<Phys, Table>, u: Phys, k: nat, v: Virt, t: Phys, m: nat)
    requires k <= 3
    decreases k
  {
    u in tabs &&
    if k == m then u == t
    else
      && m < k && Present(tabs[u][Idx(v, k)]) && !LargeBit(tabs[u][Idx(v, k)]) && WriteBit(tabs[u][Idx(v, k)])
      && Leads(tabs, Frame(tabs[u][Idx(v, k)]), k - 1, v, t, m)
  }

  /** Tables are unshared: the walks of two addresses meet in a table only when that table
      serves both. */
  lemma {:induction false} LeadsServes(tabs: map<Phys, Table>, regs: map<Phys, Region>, root: Phys, u: Phys, k: nat,
                                       v: Virt, t: Phys, m: nat)
    requires Tree(tabs, regs, root) && k <= 3 && Leads(tabs, u, k, v, t, m) && Serves(regs, u, k, v)
    ensures m <= k && t in tabs && Serves(regs, t, m, v)
    decreases k
  {
    if k != m {
      var i := Idx(v, k);
      assert EntryFits(tabs, regs, u, i);
      PrefixSplit(v, k);
      LeadsServes(tabs, regs, root, Frame(tabs[u][i]), k - 1, v, t, m);
    }
  }

  /** Walks that agree above level m pass through the same tables down to it. */
  lemma {:induction false} LeadsWalk(tabs: map<Phys, Table>, u: Phys, k: nat, v: Virt, t: Phys, m: nat, w: Virt)
    requires k <= 3 && Leads(tabs, u, k, v, t, m) && m <= k && v / Unit(m + 1) == w / Unit(m + 1)
    ensures Leads(tabs, u, k, w, t, m) && Walk(tabs, u, k, w) == Walk(tabs, t, m, w)
    decreases k
  {
    if k != m {
      SameIndexAbove(v, w, m, k);
      LeadsWalk(tabs, Frame(tabs[u][Idx(v, k)]), k - 1, v, t, m, w);
    }
  }

  lemma SameIndexAbove(v: Virt, w: Virt, m: nat, k: nat)
    requires m < k <= 3 && v / Unit(m + 1) == w / Unit(m + 1)
    ensures Idx(v, k) == Idx(w, k)
    decreases k - m
  {
    if k > m + 1 {
      PrefixSplit(v, m + 1);
      PrefixSplit(w, m + 1);
      SameIndexAbove(v, w, m + 1, k);
    }
  }

  /** Changing one entry leaves every walk alone that does not use it. */
  lemma {:induction false} WalkUnaffected(tabs: map<Phys, Table>, regs: map<Phys, Region>, root: Phys, t: Phys, i: nat,
                                          tabs': map<Phys, Table>,
                                          u: Phys, k: nat, w: Virt)
    requires Tree(tabs, regs, root) && t in tabs && i < 512 && k <= 3 && Serves(regs, u, k, w)
    requires tabs.Keys <= tabs'.Keys && forall x, n :: x in tabs && 0 <= n < 512 && !(x == t && n == i) ==>
             tabs'[x][n] == tabs[x][n]
    requires k >= regs[t].level ==> w / Unit(regs[t].level) != regs[t].prefix * 512 + i
    ensures Walk(tabs', u, k, w) == Walk(tabs, u, k, w)
    decreases k
  {
    var n := Idx(w, k);
    PrefixSplit(w, k);
    assert EntryFits(tabs, regs, u, n);
    assert tabs'[u][n] == tabs[u][n];
    if k > 0 && Present(tabs[u][n]) && !LargeBit(tabs[u][n]) {
      WalkUnaffected(tabs, regs, root, t, i, tabs', Frame(tabs[u][n]), k - 1, w);
    }
  }

  /** A walk down to t does not use t's own entries, so changing one of them keeps it. */
  lemma {:induction false} LeadsUnaffected(tabs: map<Phys, Table>, regs: map<Phys, Region>, root: Phys, tabs': map<Phys,
                                           Table>, i: nat,
                                           u: Phys, k: nat, v: Virt, t: Phys, m: nat)
    requires Tree(tabs, regs, root) && k <= 3 && Leads(tabs, u, k, v, t, m) && Serves(regs, u, k, v)
    requires tabs.Keys <= tabs'.Keys && forall x, n :: x in tabs && 0 <= n < 512 && !(x == t && n == i) ==>
             tabs'[x][n] == tabs[x][n]
    ensures Leads(tabs', u, k, v, t, m)
    decreases k
  {
    if k != m {
      LeadsServes(tabs, regs, root, u, k, v, t, m);
      var n := Idx(v, k);
      assert EntryFits(tabs, regs, u, n) && tabs'[u][n] == tabs[u][n];
      PrefixSplit(v, k);
      LeadsUnaffected(tabs, regs, root, tabs', i, Frame(tabs[u][n]), k - 1, v, t, m);
    }
  }

  lemma {:induction false} LeadsOneMore(tabs: map<Phys, Table>, u: Phys, k: nat, v: Virt, t: Phys, m: nat)
    requires k <= 3 && Leads(tabs, u, k, v, t, m) && 0 < m <= k && Present(tabs[t][Idx(v, m)])
             && !LargeBit(tabs[t][Idx(v, m)]) && WriteBit(tabs[t][Idx(v, m)])
    requires Frame(tabs[t][Idx(v, m)]) in tabs
    ensures Leads(tabs, u, k, v, Frame(tabs[t][Idx(v, m)]), m - 1)
    decreases k
  {
    if k != m {
      LeadsOneMore(tabs, Frame(tabs[u][Idx(v, k)]), k - 1, v, t, m);
    }
  }

  /** The root serves everything. */
  lemma RootServes(tabs: map<Phys, Table>, regs: map<Phys, Region>, root: Phys, v: Virt)
    requires Tree(tabs, regs, root)
    ensures Serves(regs, root, 3, v)
  {
    PrefixSplit(v, 3);
  }

  function ZeroTable(): (t: Table)
    ensures forall i :: 0 <= i < 512 ==> t[i] == 0
  {
    seq(512, i => 0)
  }

  /** The tables after a new, zeroed page c has been linked below entry i of t. */
  function Linked(tabs: map<Phys, Table>, t: Phys, i: nat, c: Phys): map<Phys, Table>
    requires t in tabs && i < 512
  {
    tabs[c := ZeroTable()][t := tabs[t][i := SmallEntry(c)]]
  }

  lemma LinkKeepsTree(tabs: map<Phys, Table>, regs: map<Phys, Region>, root: Phys, v: Virt, t: Phys, l: nat, c: Phys)
    requires Tree(tabs, regs, root) && 1 <= l <= 3 && t in tabs && Serves(regs, t, l, v)
    requires c !in tabs && c % PAGE == 0
    ensures Tree(Linked(tabs, t, Idx(v, l), c), regs[c := Region(l - 1, v / Unit(l))], root)
  {
    var tabs', regs' := Linked(tabs, t, Idx(v, l), c), regs[c := Region(l - 1, v / Unit(l))];
    PointerEntry(c);
    PrefixSplit(v, l);
    forall x, n | x in tabs' && 0 <= n < 512
      ensures EntryFits(tabs', regs', x, n)
    {
      if x in tabs { assert EntryFits(tabs, regs, x, n); }
    }
  }

  lemma LinkLeads(tabs: map<Phys, Table>, regs: map<Phys, Region>, root: Phys, v: Virt, t: Phys, l: nat, c: Phys)
    requires Tree(tabs, regs, root) && 1 <= l <= 3 && Leads(tabs, root, 3, v, t, l) && t in tabs
    requires c !in tabs && c % PAGE == 0
    ensures Leads(Linked(tabs, t, Idx(v, l), c), root, 3, v, c, l - 1)
  {
    var tabs' := Linked(tabs, t, Idx(v, l), c);
    RootServes(tabs, regs, root, v);
    LeadsUnaffected(tabs, regs, root, tabs', Idx(v, l), root, 3, v, t, l);
    PointerEntry(c);
    LeadsOneMore(tabs', root, 3, v, t, l);
  }

  lemma WalkAbsent(tabs: map<Phys, Table>, t: Phys, l: nat, w: Virt)
    requires l <= 3 && t in tabs && !Present(tabs[t][Idx(w, l)])
    ensures Walk(tabs, t, l, w) == NotMapped
  {
  }

  lemma LinkedEntries(tabs: map<Phys, Table>, t: Phys, i: nat, c: Phys)
    requires t in tabs && i < 512 && c !in tabs
    ensures var tabs' := Linked(tabs, t, i, c);
            && tabs.Keys <= tabs'.Keys && c in tabs'
            && (forall x, n :: x in tabs && 0 <= n < 512 && !(x == t && n == i) ==> tabs'[x][n] == tabs[x][n])
            && forall n :: 0 <= n < 512 ==> !Present(tabs'[c][n])
  {
  }

  /** Linking an empty table where there was no entry changes no translation. */
  lemma LinkKeepsWalk(tabs: map<Phys, Table>, regs: map<Phys, Region>, root: Phys, v: Virt, t: Phys, l: nat, c: Phys,
                      w: Virt)
    requires Tree(tabs, regs, root) && 1 <= l <= 3 && Leads(tabs, root, 3, v, t, l) && t in tabs
             && !Present(tabs[t][Idx(v, l)])
    requires c !in tabs && c % PAGE == 0
    ensures Walk(Linked(tabs, t, Idx(v, l), c), root, 3, w) == Walk(tabs, root, 3, w)
  {
    hide Tree, Walk, Leads, Linked, Present, Idx, Serves;
    var tabs' := Linked(tabs, t, Idx(v, l), c);
    LinkedEntries(tabs, t, Idx(v, l), c);
    SamePiece(v, w, l);
    if w / Unit(l) == v / Unit(l) {
      LinkLeads(tabs, regs, root, v, t, l, c);
      LeadsWalk(tabs, root, 3, v, t, l, w);
      LeadsWalk(tabs', root, 3, v, c, l - 1, w);
      WalkAbsent(tabs, t, l, w);
      WalkAbsent(tabs', c, l - 1, w);
    } else {
      Elsewhere(tabs, regs, root, v, t, l, w);
      WalkUnaffected(tabs, regs, root, t, Idx(v, l), tabs', root, 3, w);
    }
  }

  /** Addresses in one piece agree above it. */
  lemma SamePiece(v: Virt, w: Virt, l: nat)
    requires l <= 3
    ensures w / Unit(l) == v / Unit(l) ==> w / Unit(l + 1) == v / Unit(l + 1) && Idx(w, l) == Idx(v, l)
  {
    PrefixSplit(v, l);
    PrefixSplit(w, l);
  }

  lemma Elsewhere(tabs: map<Phys, Table>, regs: map<Phys, Region>, root: Phys, v: Virt, t: Phys, l: nat, w: Virt)
    requires Tree(tabs, regs, root) && l <= 3 && Leads(tabs, root, 3, v, t, l) && w / Unit(l) != v / Unit(l)
    ensures Serves(regs, root, 3, w) && t in regs && regs[t].level == l
            && w / Unit(regs[t].level) != regs[t].prefix * 512 + Idx(v, l)
  {
    hide Leads;
    RootServes(tabs, regs, root, v);
    RootServes(tabs, regs, root, w);
    LeadsServes(tabs, regs, root, root, 3, v, t, l);
    PrefixSplit(v, l);
  }

  /** The translation that a leaf entry gives at level 0 or 1. */
  function Leaf(e: Word, l: nat, w: Virt): Translation
    requires l <= 1
  {
    if l == 0 then Small(Frame(e) + w % PAGE, WriteBit(e))
    else Large(Frame(e) / PAGE_2M * PAGE_2M + w % PAGE_2M, WriteBit(e))
  }

  function Stored(tabs: map<Phys, Table>, t: Phys, i: nat, e: Word): map<Phys, Table>
    requires t in tabs && i < 512
  {
    tabs[t := tabs[t][i := e]]
  }

  /** Storing a leaf translates exactly the page it stands for and nothing else. */
  lemma StoreLeaf(tabs: map<Phys, Table>, regs: map<Phys, Region>, root: Phys, v: Virt, t: Phys, l: nat, e: Word)
    requires Tree(tabs, regs, root) && l <= 1 && Leads(tabs, root, 3, v, t, l) && Present(e) && (l == 1 ==> LargeBit(e))
    ensures t in tabs && Tree(Stored(tabs, t, Idx(v, l), e), regs, root)
    ensures forall w: Virt :: Walk(Stored(tabs, t, Idx(v, l), e), root, 3, w) ==
              if w / Unit(l) == v / Unit(l) then Leaf(e, l, w) else Walk(tabs, root, 3, w)
  {
    var i := Idx(v, l);
    RootServes(tabs, regs, root, v);
    LeadsServes(tabs, regs, root, root, 3, v, t, l);
    var tabs' := Stored(tabs, t, i, e);
    LeadsUnaffected(tabs, regs, root, tabs', i, root, 3, v, t, l);
    forall x, n | x in tabs' && 0 <= n < 512
      ensures EntryFits(tabs', regs, x, n)
    {
      assert EntryFits(tabs, regs, x, n);
    }
    forall w: Virt
      ensures Walk(tabs', root, 3, w) == if w / Unit(l) == v / Unit(l) then Leaf(e, l, w) else Walk(tabs, root, 3, w)
    {
      RootServes(tabs, regs, root, w);
      PrefixSplit(v, l);
      PrefixSplit(w, l);
      if w / Unit(l) == v / Unit(l) {
        LeadsWalk(tabs', root, 3, v, t, l, w);
      } else {
        WalkUnaffected(tabs, regs, root, t, i, tabs', root, 3, w);
      }
    }
  }

  // ---------------------------------------------------------------- the loader's mapping functions

  /** Large pages occur only in page directories. */
  lemma NotLargeAbove(tabs: map<Phys, Table>, regs: map<Phys, Region>, root: Phys, v: Virt, t: Phys, l: nat)
    requires Tree(tabs, regs, root) && 2 <= l <= 3 && Leads(tabs, root, 3, v, t, l) && t in tabs
    ensures !(Present(tabs[t][Idx(v, l)]) && LargeBit(tabs[t][Idx(v, l)]))
  {
    RootServes(tabs, regs, root, v);
    LeadsServes(tabs, regs, root, root, 3, v, t, l);
    assert EntryFits(tabs, regs, t, Idx(v, l));
  }

  /** A directory on the way of an address that has no 2 MiB translation has no leaf for it. */
  lemma NotLargeHere(tabs: map<Phys, Table>, root: Phys, v: Virt, t: Phys)
    requires Leads(tabs, root, 3, v, t, 1) && t in tabs && !Walk(tabs, root, 3, v).Large?
    ensures !(Present(tabs[t][Idx(v, 1)]) && LargeBit(tabs[t][Idx(v, 1)]))
  {
    LeadsWalk(tabs, root, 3, v, t, 1, v);
  }

  /** A present entry that is no leaf leads to the next table. */
  lemma PointerLeads(tabs: map<Phys, Table>, regs: map<Phys, Region>, root: Phys, v: Virt, t: Phys, l: nat)
    requires Tree(tabs, regs, root) && 1 <= l <= 3 && Leads(tabs, root, 3, v, t, l) && t in tabs
    requires Present(tabs[t][Idx(v, l)]) && !LargeBit(tabs[t][Idx(v, l)])
    ensures var e := tabs[t][Idx(v, l)];
            0 <= e - e % PAGE < PSIZE && e - e % PAGE in tabs && Leads(tabs, root, 3, v, e - e % PAGE, l - 1)
  {
    hide Leads, Frame, Idx, Present, LargeBit;
    var e := tabs[t][Idx(v, l)];
    RootServes(tabs, regs, root, v);
    LeadsServes(tabs, regs, root, root, 3, v, t, l);
    assert EntryFits(tabs, regs, t, Idx(v, l));
    PointerFrame(e);
    LeadsOneMore(tabs, root, 3, v, t, l);
  }

  /** Pages to come are page-aligned, distinct and not yet in use. */
  ghost predicate SupplyFits(supply: seq<Phys>, used: set<Phys>, pool: set<Phys>) {
    && (forall i :: 0 <= i < |supply| ==> supply[i] % PAGE == 0 && supply[i] !in used && supply[i] in pool)
    && (forall i, j :: 0 <= i < j < |supply| ==> supply[i] != supply[j])
  }

  lemma SupplyStep(supply: seq<Phys>, used: set<Phys>, pool: set<Phys>)
    requires SupplyFits(supply, used, pool) && supply != []
    ensures SupplyFits(supply[1..], used + {supply[0]}, pool) && supply[0] in pool && supply[0] !in used
  {
  }

  lemma LinkStep(tabs: map<Phys, Table>, regs: map<Phys, Region>, root: Phys, v: Virt, t: Phys, l: nat, c: Phys)
    requires Tree(tabs, regs, root) && 1 <= l <= 3 && Leads(tabs, root, 3, v, t, l) && t in tabs
             && !Present(tabs[t][Idx(v, l)])
    requires c !in tabs && c % PAGE == 0
    ensures Tree(Linked(tabs, t, Idx(v, l), c), regs[c := Region(l - 1, v / Unit(l))], root)
    ensures Linked(tabs, t, Idx(v, l), c).Keys == tabs.Keys + {c}
    ensures Leads(Linked(tabs, t, Idx(v, l), c), root, 3, v, c, l - 1)
    ensures forall w: Virt :: Walk(Linked(tabs, t, Idx(v, l), c), root, 3, w) == Walk(tabs, root, 3, w)
  {
    RootServes(tabs, regs, root, v);
    LeadsServes(tabs, regs, root, root, 3, v, t, l);
    LinkKeepsTree(tabs, regs, root, v, t, l, c);
    LinkLeads(tabs, regs, root, v, t, l, c);
    forall w: Virt
      ensures Walk(Linked(tabs, t, Idx(v, l), c), root, 3, w) == Walk(tabs, root, 3, w)
    {
      LinkKeepsWalk(tabs, regs, root, v, t, l, c, w);
    }
  }

  // ---------------------------------------------------------------- tables in memory

  /** Where entry i of a table is. */
  function Slot(t: Phys, i: nat): int { t + 8 * i }

  ghost predicate SlotBacked(mem: Memory, tabs: map<Phys, Table>, t: Phys, i: nat)
    requires t in tabs && i < 512
  {
    Load(mem, Slot(t, i), 8) == tabs[t][i]
  }

  /** The bytes in memory are those of the tables. */
  ghost predicate Backed(mem: Memory, tabs: map<Phys, Table>) {
    && (forall t :: t in tabs ==> t % PAGE == 0)
    && (forall t, i :: t in tabs && 0 <= i < 512 ==> SlotBacked(mem, tabs, t, i))
  }

  /** Address a lies in one of these pages. */
  ghost predicate Inside(pages: set<Phys>, a: int) { exists t :: t in pages && t <= a < t + PAGE }

  ghost predicate SameOutside(pages: set<Phys>, mem: Memory, mem': Memory) {
    forall a :: !Inside(pages, a) ==> mem'(a) == mem(a)
  }

  lemma SameOutsideSelf(pages: set<Phys>, mem: Memory)
    ensures SameOutside(pages, mem, mem)
  {
  }

  lemma SameOutsideTwice(pages: set<Phys>, mem: Memory, mem': Memory, mem'': Memory)
    requires SameOutside(pages, mem, mem') && SameOutside(pages, mem', mem'')
    ensures SameOutside(pages, mem, mem'')
  {
  }

  /** Entries of page-aligned tables do not overlap. */
  lemma SlotsApart(t: Phys, i: nat, u: Phys, j: nat)
    requires t % PAGE == 0 && u % PAGE == 0 && i < 512 && j < 512 && (t, i) != (u, j)
    ensures Slot(t, i) + 8 <= Slot(u, j) || Slot(u, j) + 8 <= Slot(t, i)
  {
    if t != u { PagesApart(t, u); }
  }

  lemma PagesApart(t: Phys, u: Phys)
    requires t % PAGE == 0 && u % PAGE == 0 && t != u
    ensures t + PAGE <= u || u + PAGE <= t
  {
  }

  lemma WordRange(e: Word)
    ensures 0 <= e < Power(8)
  {
    Power8();
  }

  lemma StoreBacked(mem: Memory, tabs: map<Phys, Table>, t: Phys, i: nat, e: Word)
    requires Backed(mem, tabs) && t in tabs && i < 512
    ensures Backed(Store(mem, Slot(t, i), e, 8), Stored(tabs, t, i, e))
    ensures SameOutside({t}, mem, Store(mem, Slot(t, i), e, 8))
  {
    var mem', tabs' := Store(mem, Slot(t, i), e, 8), Stored(tabs, t, i, e);
    WordRange(e);
    StoreLoad(mem, Slot(t, i), e, 8);
    forall u, j | u in tabs' && 0 <= j < 512 ensures SlotBacked(mem', tabs', u, j) {
      assert SlotBacked(mem, tabs, u, j);
      if (u, j) != (t, i) {
        SlotsApart(t, i, u, j);
        LoadSame(mem, mem', Slot(u, j), 8);
      }
    }
    forall a | !Inside({t}, a) ensures mem'(a) == mem(a) { assert t in {t}; }
  }

  lemma ZeroBacked(mem: Memory, tabs: map<Phys, Table>, c: Phys)
    requires Backed(mem, tabs) && c !in tabs && c % PAGE == 0
    ensures Backed(Memset(mem, c, PAGE), tabs[c := ZeroTable()])
    ensures SameOutside({c}, mem, Memset(mem, c, PAGE))
  {
    var mem', tabs' := Memset(mem, c, PAGE), tabs[c := ZeroTable()];
    forall u, j | u in tabs' && 0 <= j < 512 ensures SlotBacked(mem', tabs', u, j) {
      if u == c {
        LoadZeros(mem', Slot(c, j), 8);
      } else {
        assert SlotBacked(mem, tabs, u, j);
        PagesApart(u, c);
        LoadSame(mem, mem', Slot(u, j), 8);
      }
    }
    forall a | !Inside({c}, a) ensures mem'(a) == mem(a) { assert c in {c}; }
  }

  /** Writes that spare the tables leave them in memory. */
  lemma SparedBacked(mem: Memory, mem': Memory, tabs: map<Phys, Table>)
    requires Backed(mem, tabs) && forall a :: Inside(tabs.Keys, a) ==> mem'(a) == mem(a)
    ensures Backed(mem', tabs)
  {
    forall u, j | u in tabs && 0 <= j < 512 ensures SlotBacked(mem', tabs, u, j) {
      assert SlotBacked(mem, tabs, u, j);
      forall a | Slot(u, j) <= a < Slot(u, j) + 8
          ensures mem'(a) == mem(a) { assert u in tabs.Keys && u <= a < u + PAGE; }
      LoadSame(mem, mem', Slot(u, j), 8);
    }
  }

  lemma SameOutsideMore(pages: set<Phys>, more: set<Phys>, mem: Memory, mem': Memory)
    requires SameOutside(pages, mem, mem') && pages <= more
    ensures SameOutside(more, mem, mem')
  {
    forall a | !Inside(more, a) ensures mem'(a) == mem(a) { assert !Inside(pages, a); }
  }

  /** The processor's walk, which reads its entries from memory. */
  function WalkMemory(mem: Memory, t: Phys, l: nat, v: Virt): Translation
    requires l <= 3
    decreases l
  {
    Power8();
    var e: Word := Load(mem, Slot(t, Idx(v, l)), 8);
    if !Present(e) then NotMapped
    else if l == 0 then Small(Frame(e) + v % PAGE, WriteBit(e))
    else if LargeBit(e) then if l == 1 then Large(Frame(e) / PAGE_2M * PAGE_2M + v % PAGE_2M, WriteBit(e))
           else NotMapped
    else Below(e, WalkMemory(mem, Frame(e), l - 1, v))
  }

  lemma {:induction false} WalkReadsTables(mem: Memory, tabs: map<Phys, Table>, regs: map<Phys, Region>, root: Phys,
                                           t: Phys, l: nat, v: Virt)
    requires Backed(mem, tabs) && Tree(tabs, regs, root) && t in tabs && regs[t].level == l <= 3
    ensures WalkMemory(mem, t, l, v) == Walk(tabs, t, l, v)
    decreases l
  {
    var i := Idx(v, l);
    assert SlotBacked(mem, tabs, t, i) && EntryFits(tabs, regs, t, i);
    var e := tabs[t][i];
    if Present(e) && l > 0 && !LargeBit(e) {
      WalkReadsTables(mem, tabs, regs, root, Frame(e), l - 1, v);
    }
  }

  class Mapper {
    /** All of physical memory. */
    var mem: Memory
    ghost var tables: map<Phys, Table>
    /** The pages the firmware will hand out, in order; it refuses when none is left. */
    var supply: seq<Phys>
    const pml4: Phys
    /** Every page that is or may become a table. */
    ghost const pool: set<Phys>
    ghost var region: map<Phys, Region>

    ghost predicate Valid()
      reads this
    {
      && Tree(tables, region, pml4) && Backed(mem, tables)
      && tables.Keys <= pool && SupplyFits(supply, tables.Keys, pool)
    }

    function Translate(v: Virt): Translation
      reads `mem
    {
      WalkMemory(mem, pml4, 3, v)
    }

    lemma Translated(v: Virt)
      requires Valid()
      ensures Translate(v) == Walk(tables, pml4, 3, v)
    {
      WalkReadsTables(mem, tables, region, pml4, pml4, 3, v);
    }

    lemma AllTranslated()
      requires Valid()
      ensures forall v: Virt :: Translate(v) == Walk(tables, pml4, 3, v)
    {
      hide Mapper.Translate, Walk, Mapper.Valid;
      forall v: Virt ensures Translate(v) == Walk(tables, pml4, 3, v) { Translated(v); }
    }

    /** Table t lies at level l on the way of v. */
    ghost predicate On(t: Phys, l: nat, v: Virt)
      reads `tables
    {
      Leads(tables, pml4, 3, v, t, l) && t in tables
    }

    lemma RootOn(v: Virt)
      requires Valid()
      ensures On(pml4, 3, v)
    {
    }

    constructor (mem: Memory, pml4: Phys, supply: seq<Phys>)
      requires pml4 % PAGE == 0
      requires forall i :: 0 <= i < |supply| ==> supply[i] % PAGE == 0 && supply[i] != pml4
      requires forall i, j :: 0 <= i < j < |supply| ==> supply[i] != supply[j]
      ensures Valid() && this.pml4 == pml4 && this.supply == supply && pool == {pml4} + (set x | x in supply)
      ensures (forall v: Virt :: Translate(v) == NotMapped) && SameOutside(pool, mem, this.mem)
    {
      this.pml4, this.supply := pml4, supply;
      this.mem := Memset(mem, pml4, PAGE);
      tables := map[pml4 := ZeroTable()];
      region := map[pml4 := Region(3, 0)];
      pool := {pml4} + (set x | x in supply);
      new;
      ZeroBacked(mem, map[], pml4);
      assert map[][pml4 := ZeroTable()] == tables;
      SameOutsideMore({pml4}, pool, mem, this.mem);
      hide *;
      Unmapped();
    }

    lemma Unmapped()
      requires Valid() && pml4 in tables && tables[pml4] == ZeroTable()
      ensures forall v: Virt :: Translate(v) == NotMapped
    {
      AllTranslated();
      hide Mapper.Translate;
    }

    /** The entry of t for vaddr, after a new table has been linked there if it was not present. */
    method NextTable(t: Phys, l: nat, vaddr: Word) returns (ok: bool, child: Phys)
      requires Valid() && 1 <= l <= 3 && On(t, l, vaddr % VSIZE)
      requires l == 1 ==> !Translate(vaddr % VSIZE).Large?
      modifies this
      ensures Valid() && (ok ==> On(child, l - 1, vaddr % VSIZE)) && SameOutside(pool, old(mem), mem)
      ensures forall w: Virt :: Translate(w) == old(Translate(w))
      ensures (!ok ==> old(supply) == []) && |supply| + 1 >= old(|supply|)
    {
      hide Mapper.Valid, Mapper.On, Mapper.Translate, Load, Slot, Serves, SameOutside, Idx, Present;
      var i := vaddr / Unit(l) % 512;
      NextFacts(t, l, vaddr);
      NextPointer(t, l, vaddr);
      var entry := Load(mem, Slot(t, i), 8);
      if !Present(entry) {
        if supply == [] {
          return false, 0;
        }
        child := supply[0];
        Link(t, i, child, l, vaddr % VSIZE);
      } else {
        child := entry - entry % PAGE;
      }
      ok := true;
    }

    /** The entry for vaddr in a table on its way. */
    lemma NextFacts(t: Phys, l: nat, vaddr: Word)
      requires Valid() && 1 <= l <= 3 && On(t, l, vaddr % VSIZE)
      ensures vaddr / Unit(l) % 512 == Idx(vaddr % VSIZE, l) && t in tables && Serves(region, t, l, vaddr % VSIZE)
      ensures Load(mem, Slot(t, Idx(vaddr % VSIZE, l)), 8) == tables[t][Idx(vaddr % VSIZE, l)]
      ensures SameOutside(pool, mem, mem)
    {
      IndexBits(vaddr, l);
      var v: Virt := vaddr % VSIZE;
      RootServes(tables, region, pml4, v);
      LeadsServes(tables, region, pml4, pml4, 3, v, t, l);
      assert SlotBacked(mem, tables, t, Idx(v, l));
      hide *;
      SameOutsideSelf(pool, mem);
    }

    /** If it is present it points to the next table. */
    lemma NextPointer(t: Phys, l: nat, vaddr: Word)
      requires Valid() && 1 <= l <= 3 && On(t, l, vaddr % VSIZE)
      requires l == 1 ==> !Translate(vaddr % VSIZE).Large?
      ensures var e := tables[t][Idx(vaddr % VSIZE, l)];
              Present(e) ==> 0 <= e - e % PAGE < PSIZE && On(e - e % PAGE, l - 1, vaddr % VSIZE)
    {
      hide Walk, Frame, Mapper.Translate, Leads, Tree, Idx, Present, LargeBit, Backed, SupplyFits;
      var v: Virt := vaddr % VSIZE;
      Translated(v);
      if l == 1 { NotLargeHere(tables, pml4, v, t); } else { NotLargeAbove(tables, region, pml4, v, t, l); }
      if Present(tables[t][Idx(v, l)]) { PointerLeads(tables, region, pml4, v, t, l); }
    }

    method Link(t: Phys, i: nat, page: Phys, ghost l: nat, ghost v: Virt)
      requires Valid() && 1 <= l <= 3 && i == Idx(v, l) && On(t, l, v) && Serves(region, t, l, v)
               && !Present(tables[t][Idx(v, l)])
      requires supply != [] && page == supply[0]
      modifies this
      ensures Valid() && On(page, l - 1, v) && SameOutside(pool, old(mem), mem)
      ensures forall w: Virt :: Translate(w) == old(Translate(w))
      ensures supply == old(supply)[1..]
    {
      AllTranslated();
      LinkStep(tables, region, pml4, v, t, l, page);
      SupplyStep(supply, tables.Keys, pool);
      LinkBacked(t, i, page);
      hide Tree, Leads, Walk, Linked, ZeroTable, SmallEntry, Serves, Present, Unit, Idx, SupplyFits, Backed,
          SameOutside, Memset, Store, Mapper.Translate;
      region := region[page := Region(l - 1, v / Unit(l))];
      mem := Memset(mem, page, PAGE);
      mem := Store(mem, Slot(t, i), SmallEntry(page), 8);
      tables := Linked(tables, t, i, page);
      supply := supply[1..];
      AllTranslated();
    }

    lemma LinkBacked(t: Phys, i: nat, page: Phys)
      requires Valid() && t in tables && i < 512 && page !in tables && page % PAGE == 0 && page in pool
      ensures var mem' := Store(Memset(mem, page, PAGE), Slot(t, i), SmallEntry(page), 8);
              Backed(mem', Linked(tables, t, i, page)) && SameOutside(pool, mem, mem')
    {
      var mem1 := Memset(mem, page, PAGE);
      var mem2 := Store(mem1, Slot(t, i), SmallEntry(page), 8);
      ZeroBacked(mem, tables, page);
      StoreBacked(mem1, tables[page := ZeroTable()], t, i, SmallEntry(page));
      SameOutsideMore({page}, pool, mem, mem1);
      SameOutsideMore({t}, pool, mem1, mem2);
      SameOutsideTwice(pool, mem, mem1, mem2);
    }

    /** Store a leaf in the table that vaddr leads to. */
    method StoreEntry(t: Phys, l: nat, vaddr: Word, e: Word)
      requires Valid() && l <= 1 && On(t, l, vaddr % VSIZE) && Present(e) && (l == 1 ==> LargeBit(e))
      modifies this
      ensures Valid() && supply == old(supply) && SameOutside(pool, old(mem), mem)
      ensures forall w: Virt :: Translate(w) == if w / Unit(l) == vaddr % VSIZE / Unit(l) then Leaf(e, l, w)
              else old(Translate(w))
    {
      AllTranslated();
      var i := vaddr / Unit(l) % 512;
      IndexBits(vaddr, l);
      StoreLeaf(tables, region, pml4, vaddr % VSIZE, t, l, e);
      StoreBacked(mem, tables, t, i, e);
      SameOutsideMore({t}, pool, mem, Store(mem, Slot(t, i), e, 8));
      hide Tree, Leads, Walk, Leaf, Unit, Idx, Backed, SameOutside, Store, Mapper.Translate;
      mem := Store(mem, Slot(t, i), e, 8);
      tables := Stored(tables, t, i, e);
      AllTranslated();
    }

    /** MapPage: the page of vaddr now translates to the frame of paddr and can be written; every
        other page translates, and can be written or not, as before. */
    method MapPage(vaddr: Word, paddr: Phys) returns (ok: bool)
      requires Valid() && !Translate(vaddr % VSIZE).Large?
      modifies this
      ensures Valid() && SameOutside(pool, old(mem), mem)
      ensures ok ==> forall w: Virt :: Translate(w) == Remapped(old(Translate(w)), PAGE, vaddr % VSIZE,
              Small(paddr - paddr % PAGE + w % PAGE, true), w)
      ensures (!ok ==> old(|supply|) < 3) && |supply| + 3 >= old(|supply|)
    {
      var pdpt, pd, pt;
      hide Mapper.Valid, Mapper.On, Mapper.Translate, SameOutside, Frame, SmallEntry, LargeEntry, Present, LargeBit,
          WriteBit;
      RootOn(vaddr % VSIZE);
      ok, pdpt := NextTable(pml4, 3, vaddr);
      if !ok { return; }
      ghost var mem1 := mem;
      ok, pd := NextTable(pdpt, 2, vaddr);
      SameOutsideTwice(pool, old(mem), mem1, mem);
      if !ok { return; }
      ghost var mem2 := mem;
      ok, pt := NextTable(pd, 1, vaddr);
      SameOutsideTwice(pool, old(mem), mem2, mem);
      if !ok { return; }
      ghost var mem3 := mem;
      SmallEntryFacts(paddr);
      EntriesWritable(paddr);
      StoreEntry(pt, 0, vaddr, SmallEntry(paddr));
      SameOutsideTwice(pool, old(mem), mem3, mem);
    }

    /** MapPage2M: the 2 MiB region of vaddr now translates to that of paddr and can be written,
        all else as before. */
    method MapPage2M(vaddr: Word, paddr: Phys) returns (ok: bool)
      requires Valid()
      modifies this
      ensures Valid() && SameOutside(pool, old(mem), mem)
      ensures ok ==> forall w: Virt :: Translate(w) == Remapped(old(Translate(w)), PAGE_2M, vaddr % VSIZE,
              Large(paddr - paddr % PAGE_2M + w % PAGE_2M, true), w)
      ensures (!ok ==> old(|supply|) < 2) && |supply| + 2 >= old(|supply|)
    {
      var pdpt, pd;
      hide Mapper.Valid, Mapper.On, Mapper.Translate, SameOutside, Frame, SmallEntry, LargeEntry, Present, LargeBit,
          WriteBit;
      RootOn(vaddr % VSIZE);
      ok, pdpt := NextTable(pml4, 3, vaddr);
      if !ok { return; }
      ghost var mem1 := mem;
      ok, pd := NextTable(pdpt, 2, vaddr);
      SameOutsideTwice(pool, old(mem), mem1, mem);
      if !ok { return; }
      ghost var mem2 := mem;
      LargeEntryFacts(paddr);
      StoreEntry(pd, 1, vaddr, LargeEntry(paddr));
      SameOutsideTwice(pool, old(mem), mem2, mem);
    }
  }

  /** The translation of w once the size-aligned piece around v has been given a new one. */
  function Remapped(before: Translation, size: int, v: Virt, now: Translation, w: Virt): Translation
    requires size > 0
  {
    if w / size == v / size then now else before
  }
}
