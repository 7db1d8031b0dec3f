/** The shell's stack allocator (sh/memalloc.c, sh/memalloc.h): blocks chained by prev pointers,
    allocations taken from the top block, marks that later pop everything above them, and
    strings that grow in the free space of the top block.

    A pointer is a block and an offset into its data.  Every block that malloc or realloc returns
    has a new, larger number, so a block that realloc resizes counts as moved. */
module StackAlloc {

  const ALIGNMENT: nat := 16
  const HEADER: nat := 16
  const MINSIZE: nat := 496
  /** INT_MAX / 2 */
  const HALF_INT: nat := 0x3fff_ffff

  type Byte = b: int | 0 <= b < 256
  type Id = nat
  type Data = map<Id, seq<Byte>>

  datatype Ptr = Ptr(block: Id, off: nat)

  datatype StackMark = StackMark(stackp: Id, stacknxt: Ptr, stacknleft: nat)

  function Align(n: nat): (r: nat)
    ensures n <= r < n + ALIGNMENT && r % ALIGNMENT == 0
    ensures n % ALIGNMENT == 0 ==> r == n
  {
    (n + 15) / 16 * 16
  }

  /** A multiple of the alignment that has room for n has room for n aligned. */
  lemma AlignFits(n: nat, room: nat)
    requires room % ALIGNMENT == 0 && n <= room
    ensures Align(n) <= room
  {
  }

  lemma AlignedDifference(a: int, b: int)
    requires a % ALIGNMENT == 0 && b % ALIGNMENT == 0
    ensures (a - b) % ALIGNMENT == 0
  {
    assert a - b == 16 * (a / 16 - b / 16);
  }

  // ---------------------------------------------------------------- the invariant

  /** What is on the stack: an allocation, or the space below which a live mark will cut.
      A mark at the start of a block also keeps one unit of that block allocated. */
  datatype Item = Item(block: Id, off: nat, len: nat, size: nat, mark: bool)

  /** Following prev pointers from p visits exactly these blocks; newer blocks have larger numbers. */
  ghost predicate Chain(blocks: set<Id>, prev: map<Id, Id>, p: Id) {
    if p == 0 then blocks == {}
    else p in blocks && p in prev && prev[p] < p && Chain(blocks - {p}, prev, prev[p])
  }

  ghost predicate SizesFit(data: Data) {
    forall b :: b in data ==> |data[b]| > 0 && |data[b]| % ALIGNMENT == 0
  }

  /** The blocks in use form one chain from stackp down. */
  ghost predicate Chained(data: Data, prev: map<Id, Id>, stackp: Id, nextId: Id) {
    stackp < nextId && Chain(data.Keys, prev, stackp) && SizesFit(data)
  }

  /** sstrend == stacknxt + stacknleft, and that is the end of the top block. */
  ghost predicate CursorFits(data: Data, stackp: Id, nxt: Ptr, nleft: int, end: Ptr) {
    && 0 <= nleft && nxt.block == stackp && end == Ptr(stackp, nxt.off + nleft) && nxt.off % ALIGNMENT == 0
    && if stackp in data then nxt.off + nleft == |data[stackp]| else nxt.off == 0 && nleft == 0
  }

  predicate Below(it: Item, p: Ptr) {
    it.block < p.block || (it.block == p.block && it.off + it.len <= p.off)
  }

  ghost predicate ItemFits(it: Item, data: Data) {
    && it.off % ALIGNMENT == 0
    && (it.block in data ==> |data[it.block]| == it.size && it.off + it.len <= it.size && it.off + it.len > 0)
    && (it.block !in data ==> it.block == 0 && it.mark && it.off == 0 && it.len == 0 && it.size == 0)
    && (!it.mark ==> it.len > 0)
  }

  /** Items lie in blocks of the chain, in order, without overlap, all below the cursor. */
  ghost predicate ItemsFit(items: seq<Item>, data: Data, nxt: Ptr) {
    && (forall i :: 0 <= i < |items| ==> ItemFits(items[i], data) && Below(items[i], nxt))
    && (forall i, j :: 0 <= i < j < |items| ==> Below(items[i], Ptr(items[j].block, items[j].off)))
  }

  /** A cursor p just above the first k items: where the last of them ends, or at the start of a block. */
  ghost predicate EndsAt(items: seq<Item>, k: nat, p: Ptr)
    requires k <= |items|
  {
    p.off == if k > 0 && items[k - 1].block == p.block then items[k - 1].off + items[k - 1].len else 0
  }

  /** No gaps: every item, and the cursor, follows the item below it or starts a block. */
  ghost predicate Packed(items: seq<Item>, nxt: Ptr) {
    EndsAt(items, |items|, nxt) && forall i :: 0 <= i < |items| ==> EndsAt(items, i, Ptr(items[i].block, items[i].off))
  }

  /** The mark that an item stands for. */
  ghost predicate Saved(mark: StackMark, it: Item) {
    it.mark && it.off <= it.size && mark == StackMark(it.block, Ptr(it.block, it.off), it.size - it.off)
  }

  /** Every allocation still holds the bytes it held. */
  ghost predicate SameBytes(items: seq<Item>, before: Data, after: Data) {
    forall i :: 0 <= i < |items| && !items[i].mark ==> SameRange(items[i], before, after)
  }

  ghost predicate SameRange(it: Item, before: Data, after: Data) {
    it.block in before && it.block in after && |before[it.block]| == |after[it.block]|
        && it.off + it.len <= |after[it.block]| &&
    before[it.block][it.off..it.off + it.len] == after[it.block][it.off..it.off + it.len]
  }

  // ---------------------------------------------------------------- what each step keeps

  /** Blocks of d are also in d', with the same size. */
  ghost predicate Extends(d: Data, d': Data) {
    forall b :: b in d ==> b in d' && |d'[b]| == |d[b]|
  }

  /** No block of d has changed. */
  ghost predicate Grown(d: Data, d': Data) {
    forall b :: b in d ==> b in d' && d'[b] == d[b]
  }

  /** d' is d without the blocks above top. */
  ghost predicate CutAt(d: Data, top: Id, d': Data) {
    (forall b :: b in d' <==> b in d && b <= top) && forall b :: b in d' ==> d'[b] == d[b]
  }

  lemma {:induction false} ChainBelow(blocks: set<Id>, prev: map<Id, Id>, p: Id)
    requires Chain(blocks, prev, p)
    ensures forall b :: b in blocks ==> 0 < b <= p
    ensures p == 0 || p in blocks
  {
    if p != 0 {
      ChainBelow(blocks - {p}, prev, prev[p]);
      forall b | b in blocks ensures 0 < b <= p { assert b == p || b in blocks - {p}; }
    }
  }

  lemma {:induction false} ChainUnaffected(blocks: set<Id>, prev: map<Id, Id>, p: Id, n: Id, q: Id)
    requires Chain(blocks, prev, p) && p < n
    ensures Chain(blocks, prev[n := q], p)
  {
    if p != 0 { ChainUnaffected(blocks - {p}, prev, prev[p], n, q); }
  }

  lemma NewBlockIsNew(data: Data, prev: map<Id, Id>, stackp: Id, nextId: Id, bytes: seq<Byte>)
    requires Chained(data, prev, stackp, nextId)
    ensures nextId !in data && 0 !in data && 0 !in data[nextId := bytes]
    ensures Grown(data, data[nextId := bytes]) && Extends(data, data[nextId := bytes])
  {
    ChainBelow(data.Keys, prev, stackp);
  }

  lemma ChainedPush(data: Data, prev: map<Id, Id>, stackp: Id, nextId: Id, bytes: seq<Byte>)
    requires Chained(data, prev, stackp, nextId) && |bytes| > 0 && |bytes| % ALIGNMENT == 0
    ensures Chained(data[nextId := bytes], prev[nextId := stackp], nextId, nextId + 1)
  {
    ChainBelow(data.Keys, prev, stackp);
    ChainUnaffected(data.Keys, prev, stackp, nextId, stackp);
    assert data[nextId := bytes].Keys - {nextId} == data.Keys;
  }

  lemma ChainedPop(data: Data, prev: map<Id, Id>, stackp: Id, nextId: Id)
    requires Chained(data, prev, stackp, nextId) && stackp != 0
    ensures stackp in data && stackp in prev && prev[stackp] < stackp
    ensures Chained(data - {stackp}, prev, prev[stackp], nextId)
    ensures CutAt(data, prev[stackp], data - {stackp})
  {
    assert (data - {stackp}).Keys == data.Keys - {stackp};
    ChainBelow(data.Keys - {stackp}, prev, prev[stackp]);
  }

  lemma ItemsKept(items: seq<Item>, data: Data, nxt: Ptr, data': Data, nxt': Ptr)
    requires ItemsFit(items, data, nxt) && Extends(data, data') && 0 !in data'
    requires nxt.block < nxt'.block || (nxt.block == nxt'.block && nxt.off <= nxt'.off)
    ensures ItemsFit(items, data', nxt')
  {
  }

  lemma ItemsPush(items: seq<Item>, data: Data, nxt: Ptr, it: Item, nxt': Ptr)
    requires ItemsFit(items, data, nxt) && ItemFits(it, data) && nxt == Ptr(it.block, it.off)
    requires nxt' == Ptr(it.block, it.off + it.len)
    ensures ItemsFit(items + [it], data, nxt')
  {
  }

  lemma ItemsCut(items: seq<Item>, data: Data, nxt: Ptr, k: nat, data': Data, p: Ptr)
    requires ItemsFit(items, data, nxt) && k <= |items| && forall i :: 0 <= i < k ==> Below(items[i], p)
    requires forall b :: b in data' <==> b in data && b <= p.block
    requires forall b :: b in data' ==> |data'[b]| == |data[b]|
    ensures ItemsFit(items[..k], data', p)
  {
  }

  /** The block of a live mark is still in the chain. */
  lemma MarkInChain(items: seq<Item>, data: Data, stackp: Id, nxt: Ptr, k: nat)
    requires ItemsFit(items, data, nxt) && nxt.block == stackp && k < |items|
    ensures items[k].block <= stackp && (items[k].block == 0 || items[k].block in data)
  {
    assert ItemFits(items[k], data) && Below(items[k], nxt);
  }

  /** The saved cursor fits the chain that is left once the blocks above the mark are gone. */
  lemma MarkRestored(mark: StackMark, items: seq<Item>, data: Data, nxt: Ptr, k: nat, data': Data)
    requires ItemsFit(items, data, nxt) && k < |items| && Saved(mark, items[k]) && CutAt(data, mark.stackp, data')
    ensures ItemsFit(items[..k], data', mark.stacknxt)
    ensures CursorFits(data', mark.stackp, mark.stacknxt, mark.stacknleft,
            Ptr(mark.stackp, mark.stacknxt.off + mark.stacknleft))
  {
    assert ItemFits(items[k], data);
    ItemsCut(items, data, nxt, k, data', mark.stacknxt);
  }

  /** The cursor is at the start of the top block only when nothing on the stack lies there. */
  lemma TopIsFree(items: seq<Item>, data: Data, nxt: Ptr, i: nat)
    requires ItemsFit(items, data, nxt) && nxt.block in data && nxt.off == 0 && i < |items|
    ensures items[i].block < nxt.block
  {
    assert ItemFits(items[i], data) && Below(items[i], nxt);
  }

  lemma PackedPush(items: seq<Item>, nxt: Ptr, it: Item)
    requires Packed(items, nxt) && nxt == Ptr(it.block, it.off)
    ensures Packed(items + [it], Ptr(it.block, it.off + it.len))
  {
    var all := items + [it];
    forall i | 0 <= i < |all| ensures EndsAt(all, i, Ptr(all[i].block, all[i].off)) {
      assert i < |items| ==> EndsAt(items, i, Ptr(items[i].block, items[i].off));
    }
  }

  /** A cursor at the start of a block follows any items that fit below it. */
  lemma PackedAtStart(items: seq<Item>, data: Data, nxt: Ptr, nxt': Ptr)
    requires Packed(items, nxt) && ItemsFit(items, data, nxt') && nxt'.block in data && nxt'.off == 0
    ensures Packed(items, nxt')
  {
    if items != [] { TopIsFree(items, data, nxt', |items| - 1); }
  }

  lemma PackedCut(items: seq<Item>, nxt: Ptr, k: nat)
    requires Packed(items, nxt) && k < |items|
    ensures Packed(items[..k], Ptr(items[k].block, items[k].off))
  {
    var fewer := items[..k];
    assert EndsAt(items, k, Ptr(items[k].block, items[k].off));
    forall i | 0 <= i < k ensures EndsAt(fewer, i, Ptr(fewer[i].block, fewer[i].off)) {
      assert EndsAt(items, i, Ptr(items[i].block, items[i].off));
    }
  }

  /** Giving back everything from p on leaves a cursor exactly when p is in the top block, whatever
      the distance between addresses in different blocks. */
  lemma UnallocExact(data: Data, stackp: Id, nxt: Ptr, nleft: int, end: Ptr, p: Ptr, distance: int)
    requires CursorFits(data, stackp, nxt, nleft, end) && p.off % ALIGNMENT == 0
    requires p.block == stackp ==> p.off <= nxt.off && distance == nxt.off - p.off
    ensures CursorFits(data, stackp, p, nleft + distance, end) <==> p.block == stackp
  {
  }

  lemma CutAgain(d: Data, top: Id, d': Data, top': Id, d'': Data)
    requires CutAt(d, top, d') && CutAt(d', top', d'') && top' <= top
    ensures CutAt(d, top', d'')
  {
  }

  lemma CutAll(data: Data, prev: map<Id, Id>, stackp: Id, nextId: Id)
    requires Chained(data, prev, stackp, nextId)
    ensures CutAt(data, stackp, data)
  {
    ChainBelow(data.Keys, prev, stackp);
  }

  function Max(a: nat, b: nat): (r: nat)
    ensures r >= a && r >= b && (r == a || r == b)
  {
    if a < b then b else a
  }

  function Overwritten(s: seq<Byte>, off: nat, bytes: seq<Byte>): (r: seq<Byte>)
    requires off + |bytes| <= |s|
    ensures |r| == |s|
  {
    s[..off] + bytes + s[off + |bytes|..]
  }

  ghost function AllocItem(p: Ptr, n: nat, left: nat): seq<Item> {
    if n == 0 then [] else [Item(p.block, p.off, n, p.off + n + left, false)]
  }

  /** Memory with arbitrary contents. */
  method Malloc(n: nat) returns (bytes: seq<Byte>)
    ensures |bytes| == n
  {
    var zeros: seq<Byte> := seq(n, i => 0);
    bytes :| |bytes| == |zeros|;
  }

  lemma WriteKeeps(items: seq<Item>, data: Data, prev: map<Id, Id>, stackp: Id, nextId: Id, nxt: Ptr, data': Data)
    requires Chained(data, prev, stackp, nextId) && ItemsFit(items, data, nxt)
    requires data'.Keys == data.Keys && Extends(data, data')
    ensures Chained(data', prev, stackp, nextId) && ItemsFit(items, data', nxt)
  {
    ChainBelow(data.Keys, prev, stackp);
    ItemsKept(items, data, nxt, data', nxt);
  }

  lemma WriteSpares(items: seq<Item>, data: Data, nxt: Ptr, p: Ptr, bytes: seq<Byte>, keep: nat)
    requires ItemsFit(items, data, nxt) && keep <= |items| && forall i :: 0 <= i < keep ==> Below(items[i], p)
    requires p.block in data && p.off + |bytes| <= |data[p.block]|
    ensures SameBytes(items[..keep], data, data[p.block := Overwritten(data[p.block], p.off, bytes)])
  {
    var data' := data[p.block := Overwritten(data[p.block], p.off, bytes)];
    forall i | 0 <= i < keep && !items[i].mark ensures SameRange(items[i], data, data') {
      var it := items[i];
      assert ItemFits(it, data);
      if it.block == p.block {
        assert data'[p.block][..p.off] == data[p.block][..p.off];
        PrefixRange(data[p.block], data'[p.block], p.off, it.off, it.off + it.len);
      }
    }
  }

  lemma PrefixRange(s: seq<Byte>, t: seq<Byte>, n: nat, a: nat, b: nat)
    requires a <= b <= n <= |s| && n <= |t| && s[..n] == t[..n]
    ensures s[a..b] == t[a..b]
  {
    assert s[a..b] == s[..n][a..b] && t[a..b] == t[..n][a..b];
  }

  lemma SameBytesAll(items: seq<Item>, data: Data, nxt: Ptr)
    requires ItemsFit(items, data, nxt)
    ensures SameBytes(items, data, data)
  {
    forall i | 0 <= i < |items| && !items[i].mark ensures SameRange(items[i], data, data) {
      assert ItemFits(items[i], data);
    }
  }

  /** The blocks that hold items survive unchanged. */
  lemma SameBytesKept(items: seq<Item>, data: Data, nxt: Ptr, data': Data)
    requires ItemsFit(items, data, nxt)
    requires forall i :: 0 <= i < |items| && items[i].block in data ==> items[i].block in data'
                                                                        && data'[items[i].block] == data[items[i].block]
    ensures SameBytes(items, data, data')
  {
    forall i | 0 <= i < |items| && !items[i].mark ensures SameRange(items[i], data, data') {
      assert ItemFits(items[i], data);
    }
  }

  lemma SameBytesCut(items: seq<Item>, data: Data, nxt: Ptr, keep: nat)
    requires ItemsFit(items, data, nxt) && keep <= |items|
    ensures SameBytes(items[..keep], data, data)
  {
    SameBytesAll(items, data, nxt);
  }

  lemma SameBytesTwice(items: seq<Item>, d: Data, d': Data, d'': Data)
    requires SameBytes(items, d, d') && SameBytes(items, d', d'')
    ensures SameBytes(items, d, d'')
  {
    forall i | 0 <= i < |items| && !items[i].mark ensures SameRange(items[i], d, d'') {
      assert SameRange(items[i], d, d') && SameRange(items[i], d', d'');
    }
  }

  lemma AllBelow(items: seq<Item>, data: Data, nxt: Ptr, p: Ptr)
    requires ItemsFit(items, data, nxt) && (nxt.block < p.block || (nxt.block == p.block && nxt.off <= p.off))
    ensures forall i :: 0 <= i < |items| ==> Below(items[i], p)
  {
  }

  lemma ReallocKeeps(items: seq<Item>, data: Data, prev: map<Id, Id>, sp: Id, nextId: Id, bytes: seq<Byte>)
    requires Chained(data, prev, sp, nextId) && sp in data && ItemsFit(items, data, Ptr(sp, 0))
    requires |bytes| > 0 && |bytes| % ALIGNMENT == 0
    ensures Chained((data - {sp})[nextId := bytes], prev[nextId := prev[sp]], nextId, nextId + 1)
    ensures ItemsFit(items, (data - {sp})[nextId := bytes], Ptr(nextId, 0))
    ensures SameBytes(items, data, (data - {sp})[nextId := bytes])
  {
    var d := data - {sp};
    ChainedPop(data, prev, sp, nextId);
    ChainedPush(d, prev, prev[sp], nextId, bytes);
    NewBlockIsNew(d, prev, prev[sp], nextId, bytes);
    forall i | 0 <= i < |items| ensures items[i].block < sp && ItemFits(items[i], d) {
      TopIsFree(items, data, Ptr(sp, 0), i);
      assert ItemFits(items[i], data);
    }
    assert ItemsFit(items, d, Ptr(sp, 0));
    ItemsKept(items, d, Ptr(sp, 0), d[nextId := bytes], Ptr(nextId, 0));
    SameBytesKept(items, data, Ptr(sp, 0), d[nextId := bytes]);
  }

  /** A piece of a string under construction, or other use of the stack in the middle of it. */
  datatype Part = Put(c: Byte) | PutBin(bytes: seq<Byte>) | Nested(ops: seq<Op>)

  /** What the first n parts spell. */
  function Written(parts: seq<Part>, n: nat): seq<Byte>
    requires n <= |parts|
  {
    if n == 0 then [] else Written(parts, n - 1) + Spelled(parts[n - 1])
  }

  function Spelled(part: Part): seq<Byte> {
    match part case Put(c) => [c] case PutBin(bytes) => bytes case Nested(_) => []
  }

  ghost predicate Holds(data: Data, p: Ptr, text: seq<Byte>) {
    p.block in data && p.off + |text| <= |data[p.block]| && data[p.block][p.off..p.off + |text|] == text
  }

  /** An allocation that a run holds, and what was stored in it. */
  datatype Alloc = Alloc(p: Ptr, text: seq<Byte>)

  datatype Op = Save(bytes: seq<Byte>) | Build(parts: seq<Part>) | Unalloc | Bracket(ops: seq<Op>)

  /** How a run ends: at its end, when a string gets too long, or at an stunalloc that would leave no
      cursor because the allocation to give back is not in the top block. */
  datatype Outcome = Finished | OutOfSpace | Buried

  /** What a stack of texts becomes: saving and building put one on top, unless it is empty, and
      stunalloc takes the latest off. */
  function Kept(texts: seq<seq<Byte>>, op: Op): seq<seq<Byte>> {
    match op
    case Save(bytes) => if bytes == [] then texts else texts + [bytes]
    case Build(parts) =>
      var text := Written(parts, |parts|);
      if text == [] then texts else texts + [text]
    case Unalloc => if texts == [] then [] else texts[..|texts| - 1]
    case Bracket(_) => texts
  }

  /** After the first n operations. */
  function KeptAll(ops: seq<Op>, n: nat): seq<seq<Byte>>
    requires n <= |ops|
  {
    if n == 0 then [] else Kept(KeptAll(ops, n - 1), ops[n - 1])
  }

  function Texts(live: seq<Alloc>): (r: seq<seq<Byte>>)
    ensures |r| == |live|
  {
    seq(|live|, i requires 0 <= i < |live| => live[i].text)
  }

  lemma TextsChange(live: seq<Alloc>, a: Alloc)
    ensures Texts(live + [a]) == Texts(live) + [a.text]
    ensures live != [] ==> Texts(live[..|live| - 1]) == Texts(live)[..|live| - 1]
  {
  }

  /** Strings this long are out of space. */
  const TOO_LONG: nat := HALF_INT - HEADER

  /** What can make operations end in r: a string too long for the one, an stunalloc for the other. */
  ghost predicate OpsBlamed(r: Outcome, ops: seq<Op>)
    decreases ops, 1
  {
    exists i :: 0 <= i < |ops| && OpBlamed(r, ops[i])
  }

  ghost predicate OpBlamed(r: Outcome, op: Op)
    decreases op, 0
  {
    match op
    case Save(_) => false
    case Build(parts) => PartsBlamed(r, parts)
    case Unalloc => r == Buried
    case Bracket(ops) => OpsBlamed(r, ops)
  }

  ghost predicate PartsBlamed(r: Outcome, parts: seq<Part>)
    decreases parts, 1
  {
    (r == OutOfSpace && |Written(parts, |parts|)| >= TOO_LONG) || exists i :: 0 <= i < |parts|
                                                                              && PartBlamed(r, parts[i])
  }

  ghost predicate PartBlamed(r: Outcome, part: Part)
    decreases part, 0
  {
    part.Nested? && OpsBlamed(r, part.ops)
  }

  lemma {:induction false} WrittenGrows(parts: seq<Part>, i: nat, n: nat)
    requires i <= n <= |parts|
    ensures |Written(parts, i)| <= |Written(parts, n)|
    decreases n - i
  {
    if i < n { WrittenGrows(parts, i, n - 1); }
  }

  /** Above the first base items lie exactly the live allocations, each still holding its text. */
  ghost predicate Intact(items: seq<Item>, base: nat, live: seq<Alloc>, data: Data) {
    |items| == base + |live| && forall i :: 0 <= i < |live| ==> AllocIntact(items[base + i], live[i], data)
  }

  ghost predicate AllocIntact(it: Item, a: Alloc, data: Data) {
    !it.mark && Ptr(it.block, it.off) == a.p && 0 < |a.text| <= it.len && Holds(data, a.p, a.text)
  }

  lemma AllocKept(it: Item, a: Alloc, data: Data, data': Data)
    requires AllocIntact(it, a, data) && SameRange(it, data, data')
    ensures AllocIntact(it, a, data')
  {
    TextKept(data, data', it, |a.text|);
  }

  lemma IntactKept(items: seq<Item>, base: nat, live: seq<Alloc>, data: Data, data': Data)
    requires Intact(items, base, live, data) && SameBytes(items, data, data')
    ensures Intact(items, base, live, data')
  {
    forall i | 0 <= i < |live| ensures AllocIntact(items[base + i], live[i], data') {
      assert AllocIntact(items[base + i], live[i], data) && SameRange(items[base + i], data, data');
      AllocKept(items[base + i], live[i], data, data');
    }
  }

  lemma IntactSize(items: seq<Item>, base: nat, live: seq<Alloc>, data: Data)
    requires Intact(items, base, live, data)
    ensures |items| == base + |live|
  {
  }

  lemma SameBytesPrefix(items: seq<Item>, k: nat, d: Data, d': Data)
    requires SameBytes(items, d, d') && k <= |items|
    ensures SameBytes(items[..k], d, d')
  {
  }

  lemma IntactPush(items: seq<Item>, base: nat, live: seq<Alloc>, data: Data, it: Item, a: Alloc)
    requires Intact(items, base, live, data) && AllocIntact(it, a, data)
    ensures Intact(items + [it], base, live + [a], data)
  {
    forall i | 0 <= i < |live| + 1 ensures AllocIntact((items + [it])[base + i], (live + [a])[i], data) {
      if i < |live| { assert AllocIntact(items[base + i], live[i], data); }
    }
  }

  lemma LatestIsOnTop(items: seq<Item>, base: nat, live: seq<Alloc>, data: Data, nxt: Ptr)
    requires ItemsFit(items, data, nxt) && Intact(items, base, live, data) && live != []
             && live[|live| - 1].p.block == nxt.block
    ensures live[|live| - 1].p.off <= nxt.off && live[|live| - 1].p.off % ALIGNMENT == 0
    ensures forall i :: 0 <= i < |items| - 1 ==> Below(items[i], live[|live| - 1].p)
    ensures Intact(items[..|items| - 1], base, live[..|live| - 1], data)
  {
    var n := |items| - 1;
    assert AllocIntact(items[base + (|live| - 1)], live[|live| - 1], data);
    assert ItemFits(items[n], data) && Below(items[n], nxt);
    IntactCut(items, base, live, data);
  }

  /** The latest live allocation is in the top block exactly when the cursor is not at its start. */
  lemma LatestOnTop(items: seq<Item>, base: nat, live: seq<Alloc>, data: Data, nxt: Ptr)
    requires ItemsFit(items, data, nxt) && Intact(items, base, live, data) && live != [] && Packed(items, nxt)
    ensures live[|live| - 1].p.block == nxt.block <==> nxt.off != 0
  {
    assert AllocIntact(items[base + (|live| - 1)], live[|live| - 1], data);
  }

  lemma IntactCut(items: seq<Item>, base: nat, live: seq<Alloc>, data: Data)
    requires Intact(items, base, live, data) && live != []
    ensures Intact(items[..|items| - 1], base, live[..|live| - 1], data)
  {
    var fewer, rest := items[..|items| - 1], live[..|live| - 1];
    forall i | 0 <= i < |rest| ensures AllocIntact(fewer[base + i], rest[i], data) {
      assert AllocIntact(items[base + i], live[i], data);
    }
  }

  /** A new allocation on top of intact ones. */
  lemma IntactNew(items: seq<Item>, base: nat, live: seq<Alloc>, data: Data, items': seq<Item>, data': Data, p: Ptr,
                  text: seq<Byte>, left: nat)
    requires Intact(items, base, live, data) && SameBytes(items, data, data')
    requires items' == items + AllocItem(p, Align(|text|), left) && (text != [] ==> Holds(data', p, text))
    ensures Intact(items', base, if text == [] then live else live + [Alloc(p, text)], data')
    ensures items'[..base] == items[..base] && SameBytes(items'[..base], data, data')
  {
    IntactKept(items, base, live, data, data');
    if text != [] {
      IntactPush(items, base, live, data', AllocItem(p, Align(|text|), left)[0], Alloc(p, text));
    }
  }

  lemma SameBytesAfterPop(items: seq<Item>, data: Data, top: Id, data': Data, nxt: Ptr)
    requires ItemsFit(items, data', nxt) && CutAt(data, top, data')
    ensures SameBytes(items, data, data')
  {
    forall i | 0 <= i < |items| && !items[i].mark ensures SameRange(items[i], data, data') {
      assert ItemFits(items[i], data');
    }
  }

  /** The bytes of an item as far as n, when the item has kept its bytes. */
  lemma TextKept(d: Data, d': Data, it: Item, n: nat)
    requires SameRange(it, d, d') && n <= it.len
    ensures d[it.block][it.off..it.off + n] == d'[it.block][it.off..it.off + n]
  {
    RangePrefix(d[it.block], it.off, it.off + it.len, n);
    RangePrefix(d'[it.block], it.off, it.off + it.len, n);
  }

  lemma GrabbedKept(items: seq<Item>, k: nat, d: Data, d': Data, n: nat)
    requires SameBytes(items, d, d') && k < |items| && !items[k].mark && n <= items[k].len
    ensures var it := items[k];
            && it.block in d && it.block in d' && |d[it.block]| == |d'[it.block]| && it.off + n <= |d[it.block]|
            && d[it.block][it.off..it.off + n] == d'[it.block][it.off..it.off + n]
  {
    assert SameRange(items[k], d, d');
    TextKept(d, d', items[k], n);
  }

  lemma RangePrefix(s: seq<Byte>, a: nat, b: nat, n: nat)
    requires a + n <= b <= |s|
    ensures s[a..a + n] == s[a..b][..n]
  {
  }

  class Stack {
    var data: Data
    var prev: map<Id, Id>
    var nextId: Id
    var stackp: Id
    var stacknxt: Ptr
    var stacknleft: int
    var sstrend: Ptr
    ghost var items: seq<Item>

    ghost predicate Valid()
      reads this
    {
      && Chained(data, prev, stackp, nextId)
      && CursorFits(data, stackp, stacknxt, stacknleft, sstrend)
      && ItemsFit(items, data, stacknxt)
    }

    constructor ()
      ensures Valid() && items == [] && stacknleft == 0 && Packed(items, stacknxt)
    {
      data, prev, nextId, stackp := map[], map[], 1, 0;
      stacknxt, stacknleft, sstrend, items := Ptr(0, 0), 0, Ptr(0, 0), [];
    }

    /** A new top block with room for nbytes. */
    method StNewBlock(nbytes: nat)
      requires Valid()
      modifies this
      ensures Valid() && items == old(items)
      ensures stackp == old(nextId) && stacknxt == Ptr(stackp, 0) && stacknleft == Align(Max(nbytes, MINSIZE))
      ensures Grown(old(data), data)
    {
      var n := Align(Max(nbytes, MINSIZE));
      var bytes := Malloc(n);
      NewBlockIsNew(data, prev, stackp, nextId, bytes);
      ChainedPush(data, prev, stackp, nextId, bytes);
      ItemsKept(items, data, stacknxt, data[nextId := bytes], Ptr(nextId, 0));
      hide Chained, ItemsFit, Grown, Extends;
      data := data[nextId := bytes];
      prev := prev[nextId := stackp];
      stackp := nextId;
      stacknxt, stacknleft, sstrend := Ptr(nextId, 0), n, Ptr(nextId, n);
      nextId := nextId + 1;
    }

    /** stalloc: space for nbytes, above everything that is on the stack. */
    method StAlloc(nbytes: nat) returns (p: Ptr)
      requires Valid()
      modifies this
      ensures Valid() && items == old(items) + AllocItem(p, Align(nbytes), stacknleft)
      ensures stackp == p.block && stacknxt == Ptr(p.block, p.off + Align(nbytes)) && Grown(old(data), data)
      ensures Align(nbytes) <= old(stacknleft) ==> p == old(stacknxt) && data == old(data)
                                                   && stacknleft == old(stacknleft) - Align(nbytes)
      ensures Align(nbytes) > old(stacknleft) ==> p == Ptr(old(nextId), 0)
                                                  && stacknleft == Align(Max(Align(nbytes), MINSIZE)) - Align(nbytes)
      ensures old(Packed(items, stacknxt)) ==> Packed(items, stacknxt)
    {
      var n := Align(nbytes);
      if n > stacknleft {
        StNewBlock(n);
        if old(Packed(items, stacknxt)) { PackedAtStart(items, data, old(stacknxt), stacknxt); }
      }
      hide Chained, ItemsFit, Packed, Grown;
      p := Take(n);
    }

    /** n bytes from the cursor. */
    method Take(n: nat) returns (p: Ptr)
      requires Valid() && n % ALIGNMENT == 0 && n <= stacknleft
      modifies this
      ensures Valid() && items == old(items) + AllocItem(p, n, stacknleft) && data == old(data) && stackp == old(stackp)
      ensures p == old(stacknxt) && stacknxt == Ptr(p.block, p.off + n) && stacknleft == old(stacknleft) - n
      ensures old(Packed(items, stacknxt)) ==> Packed(items, stacknxt)
    {
      p := stacknxt;
      PushItem(n);
      assert AllocItem(p, n, stacknleft - n) == [] ==> items + AllocItem(p, n, stacknleft - n) == items;
      if n > 0 && Packed(items, stacknxt) { PackedPush(items, stacknxt, AllocItem(p, n, stacknleft - n)[0]); }
      hide Chained, ItemsFit, Packed;
      stacknxt := Ptr(stacknxt.block, stacknxt.off + n);
      stacknleft := stacknleft - n;
      items := items + AllocItem(p, n, stacknleft);
    }

    /** Taking n bytes from the cursor keeps the stack in order. */
    lemma PushItem(n: nat)
      requires Valid() && n % ALIGNMENT == 0 && n <= stacknleft
      ensures (stacknxt.off + n) % ALIGNMENT == 0
      ensures ItemsFit(items + AllocItem(stacknxt, n, stacknleft - n), data, Ptr(stacknxt.block, stacknxt.off + n))
    {
      if n == 0 {
        assert items + AllocItem(stacknxt, n, stacknleft - n) == items;
      } else {
        ItemsPush(items, data, stacknxt, AllocItem(stacknxt, n, stacknleft - n)[0],
            Ptr(stacknxt.block, stacknxt.off + n));
      }
    }

    /** stunalloc: give back everything from p on.  distance is stacknxt - p; when p is in another
        block it depends on where malloc has put the blocks, and can be anything. */
    method StUnalloc(p: Ptr, distance: int, ghost keep: nat)
      requires Valid() && keep <= |items| && p.off % ALIGNMENT == 0
      requires p.block == stackp ==> p.off <= stacknxt.off && distance == stacknxt.off - p.off
      requires forall i :: 0 <= i < keep ==> Below(items[i], p)
      modifies this
      ensures Valid() <==> p.block == old(stackp)
      ensures items == old(items)[..keep] && data == old(data) && stackp == old(stackp)
      ensures stacknxt == p && stacknleft == old(stacknleft) + distance && sstrend == old(sstrend)
    {
      UnallocExact(data, stackp, stacknxt, stacknleft, sstrend, p, distance);
      if p.block == stackp {
        CutAll(data, prev, stackp, nextId);
        ItemsCut(items, data, stacknxt, keep, data, p);
      }
      hide ItemsFit, Chained, CursorFits;
      stacknleft := stacknleft + distance;
      stacknxt := p;
      items := items[..keep];
    }

    /** setstackmark: remember the cursor and pin the top block. */
    method SetStackMark() returns (mark: StackMark)
      requires Valid()
      modifies this
      ensures Valid() && |items| == old(|items|) + 1 && items[..old(|items|)] == old(items)
              && Saved(mark, items[old(|items|)])
      ensures mark == StackMark(old(stackp), old(stacknxt), old(stacknleft)) && data == old(data)
      ensures old(Packed(items, stacknxt)) ==> Packed(items, stacknxt)
    {
      mark := StackMark(stackp, stacknxt, stacknleft);
      ghost var it := Item(stackp, stacknxt.off, 0, stacknxt.off + stacknleft, true);
      if stackp != 0 && stacknxt == Ptr(stackp, 0) {
        AlignFits(1, stacknleft);
        var _ := StAlloc(1);
        it := it.(len := 16);
      }
      ItemsPush(old(items), data, old(stacknxt), it, stacknxt);
      if old(Packed(items, stacknxt)) { PackedPush(old(items), old(stacknxt), it); }
      items := old(items) + [it];
    }

    /** popstackmark: free every block above the mark and put the cursor back. */
    method PopStackMark(mark: StackMark, ghost k: nat)
      requires Valid() && k < |items| && Saved(mark, items[k])
      modifies this
      ensures Valid() && items == old(items)[..k]
      ensures stackp == mark.stackp && stacknxt == mark.stacknxt && stacknleft == mark.stacknleft
      ensures CutAt(old(data), mark.stackp, data)
    {
      MarkInChain(items, data, stackp, stacknxt, k);
      assert mark.stackp == items[k].block && mark.stacknxt.block == mark.stackp;
      hide Chained, ItemsFit, CutAt, CursorFits, Saved;
      FreeAbove(mark.stackp);
      MarkRestored(mark, items, old(data), old(stacknxt), k, data);
      RestoreCursor(mark, k);
    }

    method RestoreCursor(mark: StackMark, ghost k: nat)
      requires Chained(data, prev, stackp, nextId) && stackp == mark.stackp == mark.stacknxt.block && k < |items|
      requires ItemsFit(items[..k], data, mark.stacknxt)
      requires CursorFits(data, mark.stackp, mark.stacknxt, mark.stacknleft,
               Ptr(mark.stackp, mark.stacknxt.off + mark.stacknleft))
      modifies `stacknxt, `stacknleft, `sstrend, `items
      ensures Valid() && items == old(items)[..k] && stacknxt == mark.stacknxt && stacknleft == mark.stacknleft
    {
      hide Chained, ItemsFit, CursorFits;
      stacknxt := mark.stacknxt;
      stacknleft := mark.stacknleft;
      if stacknleft != 0 {
        sstrend := Ptr(stacknxt.block, stacknxt.off + stacknleft);
      } else {
        sstrend := stacknxt;
      }
      items := items[..k];
    }

    method FreeAbove(top: Id)
      requires Chained(data, prev, stackp, nextId) && top <= stackp && (top == 0 || top in data)
      modifies `data, `stackp
      ensures Chained(data, prev, stackp, nextId) && stackp == top && CutAt(old(data), top, data)
    {
      assert CutAt(data, stackp, data) by { CutAll(data, prev, stackp, nextId); }
      while stackp != top
        invariant Chained(data, prev, stackp, nextId) && top <= stackp && (top == 0 || top in data)
        invariant CutAt(old(data), stackp, data)
        decreases stackp
      {
        ChainedPop(data, prev, stackp, nextId);
        var sp := stackp;
        CutAgain(old(data), sp, data, prev[sp], data - {sp});
        assert top != 0 ==> top in data - {sp} && top <= prev[sp];
        hide Chained, CutAt;
        stackp := prev[sp];
        data := data - {sp};
      }
    }

    // -------------------------------------------------------------- strings that grow on the stack

    /** p points into or just past the string under construction, which starts at the cursor. */
    ghost predicate InString(p: Ptr)
      reads this
    {
      p.block == stackp && stacknxt.off <= p.off <= sstrend.off
    }

    /** The characters put so far. */
    ghost function Text(p: Ptr): seq<Byte>
      requires Valid() && InString(p)
      reads this
    {
      if stackp in data then data[stackp][stacknxt.off..p.off] else []
    }

    /** Write bytes at p, above the first keep items. */
    method Write(p: Ptr, bytes: seq<Byte>, ghost keep: nat)
      requires Valid() && stackp in data && p.block == stackp && p.off + |bytes| <= |data[stackp]| && keep <= |items|
      requires forall i :: 0 <= i < keep ==> Below(items[i], p)
      modifies `data
      ensures Valid() && data == old(data)[stackp := Overwritten(old(data)[stackp], p.off, bytes)]
      ensures SameBytes(items[..keep], old(data), data)
    {
      var data' := data[stackp := Overwritten(data[stackp], p.off, bytes)];
      WriteKeeps(items, data, prev, stackp, nextId, stacknxt, data');
      WriteSpares(items, data, stacknxt, p, bytes, keep);
      hide Chained, ItemsFit, SameBytes, Overwritten;
      data := data';
    }

    /** growstackblock, when nothing lies in the top block: let realloc enlarge that block. */
    method GrowInPlace(newlen: nat)
      requires Valid() && stackp in data && stacknxt == Ptr(stackp, 0)
      requires newlen % ALIGNMENT == 0 && newlen >= HEADER + stacknleft
      modifies this
      ensures Valid() && items == old(items) && SameBytes(items, old(data), data)
      ensures stackp in data && stacknxt == Ptr(stackp, 0) && stacknleft == newlen - HEADER
      ensures data[stackp][..old(stacknleft)] == old(data[stackp])
    {
      var sp: Id := stackp;
      var more := Malloc(newlen - HEADER - stacknleft);
      var bytes := data[sp] + more;
      ReallocKeeps(items, data, prev, sp, nextId, bytes);
      hide Chained, ItemsFit, SameBytes;
      data := (data - {sp})[nextId := bytes];
      prev := prev[nextId := prev[sp]];
      stackp := nextId;
      stacknxt, stacknleft := Ptr(stackp, 0), newlen - HEADER;
      sstrend := Ptr(stackp, stacknleft);
      nextId := nextId + 1;
    }

    /** growstackblock, otherwise: copy the free space into a new block. */
    method GrowInNewBlock(newlen: nat)
      requires Valid() && newlen % ALIGNMENT == 0 && newlen > HEADER + stacknleft
      modifies this
      ensures Valid() && items == old(items) && SameBytes(items, old(data), data)
      ensures stackp in data && stacknxt == Ptr(stackp, 0) && stacknleft >= newlen - HEADER
      ensures data[stackp][..old(stacknleft)] == old(Text(sstrend))
    {
      ghost var keep := |items|;
      var oldspace, oldlen := stacknxt, stacknleft;
      AllBelow(items, data, stacknxt, Ptr(nextId, 0));
      var p := StAlloc(newlen - HEADER);
      SameBytesKept(old(items), old(data), old(stacknxt), data);
      assert items[..keep] == old(items);
      ghost var grown := data;
      assert stackp in data && |data[stackp]| >= newlen - HEADER;
      assert oldlen > 0 ==> oldspace.block in data && data[oldspace.block] == old(data)[oldspace.block];
      assert old(Text(sstrend)) == if oldlen > 0 then old(data)[oldspace.block][oldspace.off..oldspace.off + oldlen]
             else [];
      hide *;
      MoveUp(p, oldspace, oldlen, keep);
      SameBytesTwice(old(items), old(data), grown, data);
    }

    /** Copy n free bytes to the new block and give that block back. */
    method MoveUp(p: Ptr, src: Ptr, n: nat, ghost keep: nat)
      requires Valid() && p == Ptr(stackp, 0) && stackp in data && n <= |data[stackp]| && keep <= |items|
      requires n > 0 ==> src.block in data && src.off + n <= |data[src.block]| && src.block != stackp
      requires forall i :: 0 <= i < keep ==> Below(items[i], p)
      modifies this
      ensures Valid() && items == old(items)[..keep] && SameBytes(items, old(data), data)
      ensures stackp == old(stackp) && stackp in data && stacknxt == p
              && stacknleft == |data[stackp]| == old(|data[stackp]|)
      ensures data[stackp][..n] == if n > 0 then old(data[src.block][src.off..src.off + n]) else []
    {
      if n != 0 {
        CopyUp(p, src, n, keep);
      } else {
        SameBytesCut(items, data, stacknxt, keep);
      }
      hide Chained, ItemsFit, SameBytes;
      StUnalloc(p, stacknxt.off - p.off, keep);
    }

    method CopyUp(p: Ptr, src: Ptr, n: nat, ghost keep: nat)
      requires Valid() && p == Ptr(stackp, 0) && stackp in data && n <= |data[stackp]| && keep <= |items|
      requires src.block in data && src.off + n <= |data[src.block]| && src.block != stackp
      requires forall i :: 0 <= i < keep ==> Below(items[i], p)
      modifies `data
      ensures Valid() && SameBytes(items[..keep], old(data), data)
      ensures stackp in data && |data[stackp]| == old(|data[stackp]|) && n <= |data[stackp]|
      ensures data[stackp][..n] == old(data[src.block][src.off..src.off + n])
    {
      Write(p, data[src.block][src.off..src.off + n], keep);
    }

    /** growstackblock: move the free space of the top block to a larger one, contents first. */
    method GrowStackBlock(min: nat) returns (ok: bool)
      requires Valid()
      modifies this
      ensures Valid() && items == old(items) && ok == (Max(min, old(stacknleft)) < HALF_INT - HEADER)
      ensures SameBytes(items, old(data), data)
      ensures if ok then stackp in data && stacknxt == Ptr(stackp, 0)
              && stacknleft >= Max(min, old(stacknleft)) + old(stacknleft)
                         && stacknleft >= MINSIZE && data[stackp][..old(stacknleft)] == old(Text(sstrend))
              else unchanged(this)
    {
      var need := Max(min, stacknleft);
      if need >= HALF_INT - HEADER {
        SameBytesAll(items, data, stacknxt);
        return false;
      }
      need := need + stacknleft + HEADER;
      var newlen := 512;
      while newlen < need
        invariant newlen >= 512 && newlen % ALIGNMENT == 0
      {
        newlen := newlen * 2;
      }
      if stackp != 0 && stacknxt == Ptr(stackp, 0) {
        GrowInPlace(newlen);
      } else {
        GrowInNewBlock(newlen);
      }
      ok := true;
    }

    lemma TextPrefix(n: nat)
      requires Valid() && n <= stacknleft
      ensures sstrend == Ptr(stackp, stacknxt.off + stacknleft) && n <= |Text(sstrend)|
      ensures Text(Ptr(stackp, stacknxt.off + n)) == Text(sstrend)[..n]
    {
      hide Chained, ItemsFit;
      if stackp in data {
        RangePrefix(data[stackp], stacknxt.off, sstrend.off, n);
      }
    }

    /** growstrstackblock: grow, and point again n characters into the string. */
    method GrowStrStackBlock(n: nat, min: nat) returns (ok: bool, q: Ptr)
      requires Valid() && n <= stacknleft
      modifies this
      ensures Valid() && items == old(items) && SameBytes(items, old(data), data) && InString(q)
      ensures Text(q) == old(Text(Ptr(stackp, stacknxt.off + n)))
      ensures ok == (Max(min, old(stacknleft)) < HALF_INT - HEADER)
      ensures if ok then sstrend.off - q.off >= min && sstrend.off > q.off && stackp in data
              && stacknxt.off == 0 else unchanged(this)
    {
      ghost var text := Text(sstrend);
      TextPrefix(n);
      ok := GrowStackBlock(min);
      q := Ptr(stackp, stacknxt.off + n);
      if ok {
        assert Text(q) == data[stackp][..n] == data[stackp][..old(stacknleft)][..n];
      }
    }

    /** growstackstr: called when the string fills the block. */
    method GrowStackStr() returns (ok: bool, q: Ptr)
      requires Valid()
      modifies this
      ensures Valid() && items == old(items) && SameBytes(items, old(data), data) && InString(q)
      ensures Text(q) == old(Text(sstrend))
      ensures ok == (old(stacknleft) < HALF_INT - HEADER)
      ensures if ok then sstrend.off > q.off && stackp in data && stacknxt.off == 0 else unchanged(this)
    {
      hide Chained, ItemsFit, SameBytes, Stack.Text;
      ok, q := GrowStrStackBlock(stacknleft, 0);
    }

    /** makestrspace: room for min more characters after p, keeping those before it. */
    method MakeStrSpace(min: nat, p: Ptr) returns (ok: bool, q: Ptr)
      requires Valid() && InString(p)
      modifies this
      ensures Valid() && items == old(items) && SameBytes(items, old(data), data) && InString(q)
      ensures Text(q) == old(Text(p))
      ensures ok == (Max(min, old(stacknleft)) < HALF_INT - HEADER)
      ensures if ok then sstrend.off - q.off >= min && stackp in data && stacknxt.off == 0 else unchanged(this)
    {
      hide Chained, ItemsFit, SameBytes, Stack.Text;
      ok, q := GrowStrStackBlock(p.off - stacknxt.off, min);
    }

    /** Write bytes at p, where there is room for them. */
    method Append(bytes: seq<Byte>, p: Ptr) returns (q: Ptr)
      requires Valid() && InString(p) && stackp in data && p.off + |bytes| <= sstrend.off
      modifies `data
      ensures Valid() && SameBytes(items, old(data), data) && InString(q)
      ensures Text(q) == old(Text(p)) + bytes
    {
      AllBelow(items, data, stacknxt, p);
      assert items[..|items|] == items;
      ghost var block, start := data[stackp], stacknxt.off;
      Write(p, bytes, |items|);
      q := Ptr(p.block, p.off + |bytes|);
      assert data[stackp][start..q.off] == block[start..p.off] + bytes;
    }

    /** STPUTC */
    method StPutc(c: Byte, p: Ptr) returns (ok: bool, q: Ptr)
      requires Valid() && InString(p)
      modifies this
      ensures Valid() && items == old(items) && SameBytes(items, old(data), data) && InString(q)
      ensures if ok then Text(q) == old(Text(p)) + [c] else |old(Text(p))| >= TOO_LONG
      ensures old(Packed(items, stacknxt)) ==> Packed(items, stacknxt)
    {
      ok, q := true, p;
      SameBytesAll(items, data, stacknxt);
      if p == sstrend {
        ok, q := GrowStackStr();
        if !ok { return; }
        if old(Packed(items, stacknxt)) { PackedAtStart(items, data, old(stacknxt), stacknxt); }
      }
      hide SameBytes, Stack.Text, Chained, ItemsFit, Packed;
      ghost var grown := data;
      q := Append([c], q);
      SameBytesTwice(items, old(data), grown, data);
    }

    /** stputbin */
    method StPutBin(bytes: seq<Byte>, p: Ptr) returns (ok: bool, q: Ptr)
      requires Valid() && InString(p)
      modifies this
      ensures Valid() && items == old(items) && SameBytes(items, old(data), data) && InString(q)
      ensures if ok then Text(q) == old(Text(p)) + bytes else |old(Text(p))| + |bytes| >= TOO_LONG
      ensures old(Packed(items, stacknxt)) ==> Packed(items, stacknxt)
    {
      ok, q := true, p;
      SameBytesAll(items, data, stacknxt);
      if sstrend.off - p.off < |bytes| {
        ok, q := MakeStrSpace(|bytes|, p);
        if !ok { return; }
        if old(Packed(items, stacknxt)) { PackedAtStart(items, data, old(stacknxt), stacknxt); }
      }
      if bytes == [] { return; }
      hide SameBytes, Stack.Text, Chained, ItemsFit, Packed;
      ghost var grown := data;
      q := Append(bytes, q);
      SameBytesTwice(items, old(data), grown, data);
    }

    /** The free space is always a whole number of units. */
    lemma LeftIsAligned()
      requires Valid()
      ensures stacknleft % ALIGNMENT == 0
    {
      if stackp in data {
        AlignedDifference(|data[stackp]|, stacknxt.off);
      }
    }

    lemma GrabFits(q: Ptr)
      requires Valid() && InString(q)
      ensures q.off >= stacknxt.off && Align(q.off - stacknxt.off) <= stacknleft && stackp == stacknxt.block
    {
      LeftIsAligned();
      hide Chained, ItemsFit;
      AlignFits(q.off - stacknxt.off, stacknleft);
    }

    /** grabstackstr: the finished string becomes an allocation where it stands. */
    method GrabStackStr(q: Ptr) returns (p: Ptr)
      requires Valid() && InString(q)
      modifies this
      ensures p == old(stacknxt) && data == old(data) && stackp == old(stackp)
      ensures Valid() && items == old(items) + AllocItem(p, Align(q.off - old(stacknxt.off)), stacknleft)
      ensures stacknxt == Ptr(stackp, p.off + Align(q.off - p.off)) && sstrend == old(sstrend)
      ensures old(Packed(items, stacknxt)) ==> Packed(items, stacknxt)
    {
      GrabFits(q);
      hide *;
      p := StAlloc(q.off - stacknxt.off);
    }

    /** grabstackstr, any use of the stack, ungrabstackstr: the string goes on where it stopped. */
    method PutNested(ops: seq<Op>, q: Ptr) returns (r: Outcome)
      requires Valid() && InString(q)
      modifies this
      ensures Valid() && items == old(items) && SameBytes(items, old(data), data)
      ensures stackp == old(stackp) && stacknxt == old(stacknxt) && sstrend == old(sstrend)
      ensures InString(q) && Text(q) == old(Text(q)) && (r != Finished ==> OpsBlamed(r, ops))
      decreases ops, 3
    {
      hide Chained, ItemsFit, SameBytes, SameRange, Packed, OpsBlamed;
      AllBelow(items, data, stacknxt, stacknxt);
      ghost var keep := |items|;
      var p := GrabStackStr(q);
      assert items[..keep] == old(items);
      ghost var grabbed := items;
      r := Bracket(ops);
      SameBytesPrefix(items, keep, old(data), data);
      if q != p { GrabbedKept(grabbed, keep, old(data), data, q.off - p.off); }
      StUnalloc(p, stacknxt.off - p.off, keep);
    }

    /** One part, after the characters put so far. */
    method PutPart(part: Part, p: Ptr) returns (r: Outcome, q: Ptr)
      requires Valid() && InString(p)
      modifies this
      ensures Valid() && items == old(items) && SameBytes(items, old(data), data) && InString(q)
      ensures r == Finished ==> Text(q) == old(Text(p)) + Spelled(part)
      ensures r != Finished ==> PartBlamed(r, part)
                                || (r == OutOfSpace && |old(Text(p))| + |Spelled(part)| >= TOO_LONG)
      ensures old(Packed(items, stacknxt)) ==> Packed(items, stacknxt)
      decreases part, 0
    {
      hide Stack.Valid, Stack.Text, SameBytes, Stack.InString, Packed, OpsBlamed;
      var ok := true;
      match part {
        case Put(c) =>
          ok, q := StPutc(c, p);
        case PutBin(bytes) =>
          ok, q := StPutBin(bytes, p);
        case Nested(ops) =>
          r := PutNested(ops, p);
          return r, p;
      }
      r := if ok then Finished else OutOfSpace;
    }

    /** Put every part, starting at the cursor. */
    method PutAll(parts: seq<Part>) returns (r: Outcome, q: Ptr)
      requires Valid()
      modifies this
      ensures Valid() && SameBytes(items, old(data), data) && items == old(items) && InString(q)
      ensures if r == Finished then Text(q) == Written(parts, |parts|) else PartsBlamed(r, parts)
      ensures old(Packed(items, stacknxt)) ==> Packed(items, stacknxt)
      decreases parts, 4
    {
      q := stacknxt;
      SameBytesAll(items, data, stacknxt);
      assert Text(q) == [];
      r := Finished;
      for i := 0 to |parts|
        invariant Valid() && InString(q) && items == old(items) && SameBytes(items, old(data), data)
        invariant r == Finished && Text(q) == Written(parts, i)
        invariant old(Packed(items, stacknxt)) ==> Packed(items, stacknxt)
      {
        ghost var was := data;
        hide Stack.Valid, Stack.Text, SameBytes, Stack.InString, Packed, Spelled, PartBlamed;
        r, q := PutPart(parts[i], q);
        SameBytesTwice(items, old(data), was, data);
        WrittenGrows(parts, i + 1, |parts|);
        if r != Finished { return; }
      }
    }

    /** Build a string on top of the stack and keep it. */
    method BuildString(parts: seq<Part>) returns (r: Outcome, p: Ptr)
      requires Valid()
      modifies this
      ensures Valid() && SameBytes(old(items), old(data), data)
      ensures items == old(items) + if r == Finished then AllocItem(p, Align(|Written(parts, |parts|)|), stacknleft)
              else []
      ensures r == Finished && Written(parts, |parts|) != [] ==> Holds(data, p, Written(parts, |parts|))
      ensures r != Finished ==> PartsBlamed(r, parts)
      ensures old(Packed(items, stacknxt)) ==> Packed(items, stacknxt)
      decreases parts, 5
    {
      var q;
      r, q := PutAll(parts);
      p := stacknxt;
      if r != Finished { return; }
      TextIsThere(q, Written(parts, |parts|));
      hide *;
      p := GrabStackStr(q);
    }

    lemma TextIsThere(q: Ptr, text: seq<Byte>)
      requires Valid() && InString(q) && Text(q) == text
      ensures |text| == q.off - stacknxt.off
      ensures text != [] ==> Holds(data, stacknxt, text)
    {
    }

    // -------------------------------------------------------------- runs

    /** stsavestr and its like: allocate and fill. */
    method Save(bytes: seq<Byte>) returns (p: Ptr)
      requires Valid()
      modifies this
      ensures Valid() && items == old(items) + AllocItem(p, Align(|bytes|), stacknleft)
              && SameBytes(old(items), old(data), data)
      ensures bytes != [] ==> Holds(data, p, bytes)
      ensures old(Packed(items, stacknxt)) ==> Packed(items, stacknxt)
    {
      AllBelow(items, data, stacknxt, stacknxt);
      AllBelow(items, data, stacknxt, Ptr(nextId, 0));
      p := StAlloc(|bytes|);
      SameBytesKept(old(items), old(data), old(stacknxt), data);
      ghost var grown := data;
      assert items[..old(|items|)] == old(items);
      if bytes != [] {
        Fill(p, bytes, old(|items|));
        SameBytesTwice(old(items), old(data), grown, data);
      }
    }

    method Fill(p: Ptr, bytes: seq<Byte>, ghost keep: nat)
      requires Valid() && stackp in data && p.block == stackp && p.off + |bytes| <= |data[stackp]| && keep <= |items|
      requires forall i :: 0 <= i < keep ==> Below(items[i], p)
      modifies `data
      ensures Valid() && SameBytes(items[..keep], old(data), data) && Holds(data, p, bytes)
    {
      Write(p, bytes, keep);
    }

    /** Give back the latest live allocation, when it lies in the top block. */
    method UnallocLatest(live: seq<Alloc>, ghost base: nat)
      requires Valid() && Intact(items, base, live, data) && live != [] && live[|live| - 1].p.block == stackp
      modifies this
      ensures Valid() && Intact(items, base, live[..|live| - 1], data)
      ensures items == old(items)[..old(|items|) - 1] && data == old(data)
      ensures old(Packed(items, stacknxt)) ==> Packed(items, stacknxt)
    {
      ghost var k := |items| - 1;
      LatestIsOnTop(items, base, live, data, stacknxt);
      if Packed(items, stacknxt) { PackedCut(items, stacknxt, k); }
      StUnalloc(live[|live| - 1].p, stacknxt.off - live[|live| - 1].p.off, k);
    }

    /** One operation on top of base items that it must not disturb; stunalloc of the latest live
        allocation is not tried when that is not in the top block. */
    method Step(op: Op, live: seq<Alloc>, ghost base: nat) returns (r: Outcome, live': seq<Alloc>)
      requires Valid() && Intact(items, base, live, data)
      modifies this
      ensures Valid() && Intact(items, base, live', data)
      ensures base <= |old(items)| && items[..base] == old(items)[..base] && SameBytes(items[..base], old(data), data)
      ensures op == Unalloc ==> (r == Buried <==> live != [] && live[|live| - 1].p.block != old(stackp))
      ensures op == Unalloc && r != Buried && live != [] ==> live' == live[..|live| - 1]
      ensures if r == Finished then Texts(live') == Kept(Texts(live), op) else OpBlamed(r, op)
      ensures old(Packed(items, stacknxt)) ==> Packed(items, stacknxt)
      decreases op, 0
    {
      r, live' := Finished, live;
      SameBytesCut(items, data, stacknxt, base);
      hide Stack.Valid, SameBytes, Intact, Packed, Texts, OpsBlamed, PartsBlamed;
      match op {
        case Save(bytes) =>
          var p := Save(bytes);
          TextsChange(live, Alloc(p, bytes));
          IntactNew(old(items), base, live, old(data), items, data, p, bytes, stacknleft);
          live' := if bytes == [] then live else live + [Alloc(p, bytes)];
        case Build(parts) =>
          r, live' := BuildStep(parts, live, base);
        case Unalloc =>
          if live != [] {
            if live[|live| - 1].p.block != stackp { return Buried, live; }
            IntactSize(items, base, live, data);
            TextsChange(live, live[0]);
            UnallocLatest(live, base);
            live' := live[..|live| - 1];
          }
        case Bracket(ops) =>
          r := Bracket(ops);
          IntactKept(items, base, live, old(data), data);
          IntactSize(items, base, live, data);
          SameBytesPrefix(items, base, old(data), data);
      }
    }

    method BuildStep(parts: seq<Part>, live: seq<Alloc>, ghost base: nat) returns (r: Outcome, live': seq<Alloc>)
      requires Valid() && Intact(items, base, live, data)
      modifies this
      ensures Valid() && Intact(items, base, live', data)
      ensures base <= |old(items)| && items[..base] == old(items)[..base] && SameBytes(items[..base], old(data), data)
      ensures old(Packed(items, stacknxt)) ==> Packed(items, stacknxt)
      ensures if r == Finished then Texts(live') == Kept(Texts(live), Build(parts)) else PartsBlamed(r, parts)
      decreases parts, 6
    {
      IntactSize(items, base, live, data);
      hide Stack.Valid, SameBytes, Intact, Packed, Texts, PartsBlamed;
      var p;
      r, p := BuildString(parts);
      var text := if r == Finished then Written(parts, |parts|) else [];
      assert items == old(items) + AllocItem(p, Align(|text|), stacknleft);
      IntactNew(old(items), base, live, old(data), items, data, p, text, stacknleft);
      TextsChange(live, Alloc(p, text));
      live' := if text == [] then live else live + [Alloc(p, text)];
    }

    /** A run above base items: they stay in place with their bytes, and at its end the run holds
        exactly the texts that were saved and not given back, each in an allocation of its own.  The
        latest of these can be given back exactly when the cursor is not at the start of the top
        block.  Only a string too long or a buried allocation ends a run early. */
    method Run(ops: seq<Op>, ghost base: nat) returns (r: Outcome, live: seq<Alloc>)
      requires Valid() && base == |items|
      modifies this
      ensures Valid() && Intact(items, base, live, data)
      ensures items[..base] == old(items) && SameBytes(old(items), old(data), data)
      ensures old(Packed(items, stacknxt)) ==> Packed(items, stacknxt)
      ensures old(Packed(items, stacknxt)) && live != [] ==>
              (live[|live| - 1].p.block == stackp <==> stacknxt != Ptr(stackp, 0))
      ensures if r == Finished then Texts(live) == KeptAll(ops, |ops|) else OpsBlamed(r, ops)
      decreases ops, 1
    {
      r, live := Finished, [];
      SameBytesAll(items, data, stacknxt);
      assert items[..base] == items;
      for i := 0 to |ops|
        invariant Valid() && Intact(items, base, live, data)
        invariant items[..base] == old(items) && SameBytes(old(items), old(data), data)
        invariant old(Packed(items, stacknxt)) ==> Packed(items, stacknxt)
        invariant r == Finished && Texts(live) == KeptAll(ops, i)
      {
        ghost var was := data;
        hide Stack.Valid, SameBytes, Packed, Texts, Kept, OpBlamed;
        r, live := Step(ops[i], live, base);
        SameBytesTwice(old(items), old(data), was, data);
        if r != Finished { break; }
      }
      if live != [] && Packed(items, stacknxt) { LatestOnTop(items, base, live, data, stacknxt); }
    }

    /** Whatever happens between setting a mark and popping it, popping restores the cursor, and
        everything allocated before is still there. */
    method Bracket(ops: seq<Op>) returns (r: Outcome)
      requires Valid()
      modifies this
      ensures Valid() && items == old(items) && SameBytes(items, old(data), data)
      ensures stackp == old(stackp) && stacknxt == old(stacknxt) && stacknleft == old(stacknleft)
              && sstrend == old(sstrend)
      ensures r != Finished ==> OpsBlamed(r, ops)
      decreases ops, 2
    {
      hide OpsBlamed, KeptAll;
      ghost var k := |items|;
      assert sstrend == Ptr(stackp, stacknxt.off + stacknleft);
      var mark := SetStackMark();
      ghost var marked := items;
      var live;
      r, live := Run(ops, k + 1);
      assert items[k] == items[..k + 1][k];
      ghost var d := data;
      SameBytesPrefix(marked, k, old(data), d);
      PopStackMark(mark, k);
      assert items == marked[..k];
      SameBytesAfterPop(items, d, mark.stackp, data, stacknxt);
      SameBytesTwice(items, old(data), d, data);
    }
  }

  /** Latest-first is not enough for stunalloc: once the block that the last allocation opened is
      empty, the latest live allocation lies in a block further down, out of stunalloc's reach. */
  method LatestBuried() returns (s: Stack, first: Ptr)
    ensures fresh(s) && s.Valid() && s.items == AllocItem(first, 400, 96) && first.block != s.stackp
  {
    s := new Stack();
    first := s.StAlloc(400);
    assert s.stacknleft == 96 && s.items == AllocItem(first, 400, 96);
    assert s.stackp < s.nextId;
    hide Stack.Valid;
    var second := s.StAlloc(400);
    assert Below(s.items[0], second) && s.items[..1] == AllocItem(first, 400, 96);
    s.StUnalloc(second, s.stacknxt.off - second.off, 1);
  }
}
