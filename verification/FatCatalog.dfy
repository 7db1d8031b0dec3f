/** What a FAT32 image built by scripts/make_disk.py holds: directory entries, directories and files
    in chains of clusters, and what each step of the builder keeps of them. */
module FatCatalog {
  import opened FatChains

  const CLUSTER_SIZE: nat := 4096
  /** Directory entries in a cluster. */
  const SLOTS: nat := 128
  const ATTR_DIRECTORY: Byte := 0x10
  const ATTR_ARCHIVE: Byte := 0x20
  const ATTR_LONG_NAME: Byte := 0x0F

  type Byte = b: int | 0 <= b < 256
  type Block = b: seq<Byte> | |b| == CLUSTER_SIZE witness seq(CLUSTER_SIZE, _ => 0)
  type Entry = e: seq<Byte> | |e| == 32 witness seq(32, _ => 0)
  /** An 8.3 name, padded to 11 bytes. */
  type Key = k: seq<Byte> | |k| == 11 witness seq(11, _ => 0)
  type Image = seq<Block>

  function Zeros(n: nat): (r: seq<Byte>)
    ensures |r| == n && forall i :: 0 <= i < n ==> r[i] == 0
  {
    seq(n, i => 0)
  }

  // ---------------------------------------------------------------- directory entries

  function Le16(x: nat): seq<Byte>
    requires x < 0x1_0000
  {
    [x % 256, x / 256]
  }

  function U16(e: Entry, i: nat): (r: nat)
    requires i + 1 < 32
    ensures r < 0x1_0000
  {
    var lo: int, hi: int := e[i], e[i + 1];
    lo + 256 * hi
  }

  /** make_dir_entry */
  function MakeEntry(key: Key, attr: Byte, start: nat, size: nat): (e: Entry)
    requires start < 0x1_0000_0000 && size < 0x1_0000_0000
  {
    key + [attr] + Zeros(8) + Le16(start / 0x1_0000) + Zeros(4) + Le16(start % 0x1_0000) + Le16(size % 0x1_0000)
        + Le16(size / 0x1_0000)
  }

  function KeyOf(e: Entry): Key { e[..11] }

  function AttrOf(e: Entry): Byte { e[11] }

  function StartOf(e: Entry): nat { U16(e, 20) * 0x1_0000 + U16(e, 26) }

  function SizeOf(e: Entry): nat { U16(e, 30) * 0x1_0000 + U16(e, 28) }

  /** Neither the end of the directory nor a deleted entry. */
  predicate Live(e: Entry) { e[0] != 0 && e[0] != 0xE5 }

  lemma EntryRoundTrip(key: Key, attr: Byte, start: nat, size: nat)
    requires start < 0x1_0000_0000 && size < 0x1_0000_0000
    ensures var e := MakeEntry(key, attr, start, size);
            KeyOf(e) == key && AttrOf(e) == attr && StartOf(e) == start && SizeOf(e) == size && e[0] == key[0]
  {
    var e := MakeEntry(key, attr, start, size);
    assert e[20] == start / 0x1_0000 % 256 && e[21] == start / 0x1_0000 / 256;
    assert e[26] == start % 0x1_0000 % 256 && e[27] == start % 0x1_0000 / 256;
    assert e[28] == size % 0x1_0000 % 256 && e[29] == size % 0x1_0000 / 256;
    assert e[30] == size / 0x1_0000 % 256 && e[31] == size / 0x1_0000 / 256;
  }

  // ---------------------------------------------------------------- file data

  ghost predicate Distinct(s: Chain) { forall i, j :: 0 <= i < j < |s| ==> s[i] != s[j] }

  /** The contents of the first n clusters of a chain. */
  function Stored(image: Image, s: Chain, n: nat): (r: seq<Byte>)
    requires n <= |s| && forall i :: 0 <= i < |s| ==> s[i] < |image|
    ensures |r| == n * CLUSTER_SIZE
  {
    if n == 0 then [] else Stored(image, s, n - 1) + image[s[n - 1]]
  }

  ghost predicate FileIs(image: Image, s: Chain, data: seq<Byte>) {
    (forall i :: 0 <= i < |s| ==> s[i] < |image|) && |data| <= |s| * CLUSTER_SIZE
        && Stored(image, s, |s|)[..|data|] == data
  }

  /** Writing a later cluster leaves what is stored in the earlier ones. */
  lemma {:induction false} StoredPrefix(image: Image, image': Image, s: Chain, n: nat)
    requires n <= |s| && |image'| == |image| && (forall i :: 0 <= i < |s| ==> s[i] < |image|)
             && forall i :: 0 <= i < n ==> image'[s[i]] == image[s[i]]
    ensures Stored(image', s, n) == Stored(image, s, n)
  {
    if n > 0 { StoredPrefix(image, image', s, n - 1); }
  }

  function Least(a: nat, b: nat): nat { if a < b then a else b }

  /** A cluster with its beginning overwritten. */
  function Filled(b: Block, chunk: seq<Byte>): Block
    requires |chunk| <= CLUSTER_SIZE
  {
    chunk + b[|chunk|..]
  }

  /** One more cluster of a file's data. */
  lemma StoredStep(image: Image, s: Chain, i: nat, data: seq<Byte>, chunk: seq<Byte>)
    requires i < |s| && (forall j :: 0 <= j < |s| ==> s[j] < |image|) && Distinct(s)
    requires i * CLUSTER_SIZE <= |data|
    requires chunk == data[i * CLUSTER_SIZE..Least(i * CLUSTER_SIZE + CLUSTER_SIZE, |data|)]
    requires Stored(image, s, i)[..i * CLUSTER_SIZE] == data[..i * CLUSTER_SIZE]
    ensures var n := i * CLUSTER_SIZE + |chunk|;
            Stored(image[s[i] := Filled(image[s[i]], chunk)], s, i + 1)[..n] == data[..n]
  {
    var image' := image[s[i] := Filled(image[s[i]], chunk)];
    StoredPrefix(image, image', s, i);
    assert Stored(image', s, i + 1) == Stored(image, s, i) + image'[s[i]];
  }

  lemma FileKept(image: Image, image': Image, s: Chain, data: seq<Byte>)
    requires FileIs(image, s, data) && |image'| == |image| && forall i :: 0 <= i < |s| ==> image'[s[i]] == image[s[i]]
    ensures FileIs(image', s, data)
  {
    StoredPrefix(image, image', s, |s|);
  }

  // ---------------------------------------------------------------- directories

  function EntryAt(b: Block, j: nat): Entry
    requires j < SLOTS
  {
    b[32 * j..32 * j + 32]
  }

  function SetEntry(b: Block, j: nat, e: Entry): Block
    requires j < SLOTS
  {
    b[..32 * j] + e + b[32 * j + 32..]
  }

  lemma EntrySet(b: Block, j: nat, e: Entry, i: nat)
    requires j < SLOTS && i < SLOTS
    ensures EntryAt(SetEntry(b, j, e), i) == if i == j then e else EntryAt(b, i)
  {
  }

  /** Slot j of the k-th cluster of a directory that holds the entries es. */
  ghost predicate SlotFits(b: Block, es: seq<Entry>, k: nat, j: nat)
    requires j < SLOTS
  {
    if k * SLOTS + j < |es| then EntryAt(b, j) == es[k * SLOTS + j] && Live(es[k * SLOTS + j])
        else EntryAt(b, j)[0] == 0
  }

  ghost predicate DirFits(image: Image, s: Chain, es: seq<Entry>) {
    && |es| <= |s| * SLOTS
    && (forall k :: 0 <= k < |s| ==> s[k] < |image|)
    && (forall k, j :: 0 <= k < |s| && 0 <= j < SLOTS ==> SlotFits(image[s[k]], es, k, j))
  }

  lemma DirKept(image: Image, image': Image, s: Chain, es: seq<Entry>)
    requires DirFits(image, s, es) && |image'| == |image| && forall i :: 0 <= i < |s| ==> image'[s[i]] == image[s[i]]
    ensures DirFits(image', s, es)
  {
    forall k, j | 0 <= k < |s| && 0 <= j < SLOTS ensures SlotFits(image'[s[k]], es, k, j) {
      assert SlotFits(image[s[k]], es, k, j);
    }
  }

  /** Entry q replaced, or added at the end. */
  function WithEntry(es: seq<Entry>, q: nat, e: Entry): seq<Entry>
    requires q <= |es|
  {
    if q < |es| then es[q := e] else es + [e]
  }

  /** Writing slot j of cluster k: the next free slot, or one already in use. */
  lemma DirWritten(image: Image, s: Chain, es: seq<Entry>, k: nat, j: nat, e: Entry)
    requires DirFits(image, s, es) && Distinct(s) && k < |s| && j < SLOTS && Live(e) && k * SLOTS + j <= |es|
    ensures DirFits(image[s[k] := SetEntry(image[s[k]], j, e)], s, WithEntry(es, k * SLOTS + j, e))
  {
    var es' := WithEntry(es, k * SLOTS + j, e);
    var image' := image[s[k] := SetEntry(image[s[k]], j, e)];
    forall g, i | 0 <= g < |s| && 0 <= i < SLOTS ensures SlotFits(image'[s[g]], es', g, i) {
      assert SlotFits(image[s[g]], es, g, i);
      if g == k {
        SlotWritten(image[s[k]], es, k, j, e, i);
      } else {
        SlotElsewhere(image[s[g]], es, k, j, e, g, i);
      }
    }
  }

  lemma SlotWritten(b: Block, es: seq<Entry>, k: nat, j: nat, e: Entry, i: nat)
    requires j < SLOTS && i < SLOTS && k * SLOTS + j <= |es| && Live(e) && SlotFits(b, es, k, i)
    ensures SlotFits(SetEntry(b, j, e), WithEntry(es, k * SLOTS + j, e), k, i)
  {
    EntrySet(b, j, e, i);
    hide SetEntry, EntryAt;
  }

  lemma SlotElsewhere(b: Block, es: seq<Entry>, k: nat, j: nat, e: Entry, g: nat, i: nat)
    requires j < SLOTS && i < SLOTS && g != k && k * SLOTS + j <= |es| && SlotFits(b, es, g, i)
    ensures SlotFits(b, WithEntry(es, k * SLOTS + j, e), g, i)
  {
    hide EntryAt;
  }

  lemma DirGrown(image: Image, s: Chain, es: seq<Entry>, c: nat, image': Image)
    requires DirFits(image, s, es) && c < |image| == |image'| && image'[c] == Zeros(CLUSTER_SIZE)
             && forall i :: 0 <= i < |s| ==> image'[s[i]] == image[s[i]]
    ensures DirFits(image', s + [c], es)
  {
    var s' := s + [c];
    forall g, i | 0 <= g < |s'| && 0 <= i < SLOTS ensures SlotFits(image'[s'[g]], es, g, i) {
      if g < |s| { assert SlotFits(image[s[g]], es, g, i); }
    }
  }

  // ---------------------------------------------------------------- the whole disk

  /** A file is named by the directory it is in and the place of its entry there. */
  datatype FileId = FileId(dir: nat, index: nat)

  /** What the builder has put on the disk: chains, directories, files, and which file owns a data chain. */
  datatype Catalog = Catalog(chains: map<nat, Chain>, owner: map<nat, Place>, dirs: map<nat, seq<Entry>>,
                             files: map<FileId, seq<Byte>>, fileOf: map<nat, FileId>)

  /** Following a file's entry gives the bytes last written to it. */
  ghost predicate FileFits(image: Image, k: Catalog, id: FileId)
    requires id in k.files
  {
    && id.dir in k.dirs && id.index < |k.dirs[id.dir]|
    && var e, data := k.dirs[id.dir][id.index], k.files[id];
       AttrOf(e) == ATTR_ARCHIVE && SizeOf(e) == |data| &&
       if data == [] then StartOf(e) == 0
       else DataChain(k, StartOf(e), id) && FileIs(image, k.chains[StartOf(e)], data)
  }

  ghost predicate DataChain(k: Catalog, h: nat, id: FileId) {
    h in k.chains && h !in k.dirs && h in k.fileOf && k.fileOf[h] == id
  }

  ghost predicate DirsFit(image: Image, k: Catalog) {
    k.dirs.Keys <= k.chains.Keys && forall h :: h in k.dirs ==> DirFits(image, k.chains[h], k.dirs[h])
  }

  ghost predicate FilesFit(image: Image, k: Catalog) {
    forall id :: id in k.files ==> FileFits(image, k, id)
  }

  ghost predicate DiskFits(fat: Fat, image: Image, k: Catalog) {
    |image| == ENTRIES && FatFits(fat, k.chains, k.owner) && DirsFit(image, k) && FilesFit(image, k)
  }

  lemma ChainInRange(fat: Fat, k: Catalog, h: nat)
    requires FatFits(fat, k.chains, k.owner) && h in k.chains
    ensures Distinct(k.chains[h]) && |k.chains[h]| > 0 && k.chains[h][0] == h
    ensures forall i :: 0 <= i < |k.chains[h]| ==> 2 <= k.chains[h][i] < ENTRIES && fat[k.chains[h][i]] != 0
  {
    var s := k.chains[h];
    forall i | 0 <= i < |s| ensures 2 <= s[i] < ENTRIES && fat[s[i]] != 0 && s[i] in k.owner
        && k.owner[s[i]] == Place(h, i) {
      assert CellFits(fat, k.chains, k.owner, h, i);
      OwnedIsUsed(fat, k.chains, k.owner, s[i]);
    }
  }

  // ---------------------------------------------------------------- names

  const DOT: Byte := 46

  /** The directories that entries stand for. */
  type Subdirs = map<FileId, nat>

  ghost predicate SubdirFits(k: Catalog, sub: Subdirs, id: FileId)
    requires id in sub
  {
    && id !in k.files && id.dir in k.dirs && id.index < |k.dirs[id.dir]|
    && sub[id] in k.dirs && sub[id] != id.dir && sub[id] != ROOT_CLUSTER && StartOf(k.dirs[id.dir][id.index]) == sub[id]
  }

  ghost predicate Known(k: Catalog, sub: Subdirs, h: nat, i: nat)
    requires h in k.dirs && i < |k.dirs[h]|
  {
    var e := k.dirs[h][i];
    AttrOf(e) == ATTR_LONG_NAME || e[0] == DOT || FileId(h, i) in k.files || FileId(h, i) in sub
  }

  /** Every entry is part of a long name, a dot entry, or the only entry of a file or a directory. */
  ghost predicate NamesFit(k: Catalog, sub: Subdirs) {
    && ROOT_CLUSTER in k.dirs
    && (forall id :: id in sub ==> SubdirFits(k, sub, id))
    && (forall id, id' :: id in sub && id' in sub && sub[id] == sub[id'] ==> id == id')
    && (forall h, i :: h in k.dirs && 0 <= i < |k.dirs[h]| ==> Known(k, sub, h, i))
  }

  predicate LongName(e: Entry) { Live(e) && AttrOf(e) == ATTR_LONG_NAME }

  /** The files that are in none of these directories. */
  ghost function FilesOutside(files: map<FileId, seq<Byte>>, gone: set<nat>): map<FileId, seq<Byte>> {
    map id | id in files && id.dir !in gone :: files[id]
  }

  lemma AllOutside(files: map<FileId, seq<Byte>>)
    ensures FilesOutside(files, {}) == files
  {
  }

  /** Without the directory at id and those in it. */
  ghost function SubdirsWithout(sub: Subdirs, id: FileId): Subdirs
    requires id in sub
  {
    map x | x in sub && x != id && x.dir != sub[id] :: sub[x]
  }

  lemma NotThere(files: map<FileId, seq<Byte>>, gone: set<nat>, id: FileId)
    requires id !in files
    ensures FilesOutside(files, gone) - {id} == FilesOutside(files, gone)
  {
  }

  // ---------------------------------------------------------------- what can be reached from the root

  /** Following the entries of a path leads from one directory to another. */
  ghost predicate Leads(sub: Subdirs, from: nat, path: seq<FileId>, to: nat)
    decreases |path|
  {
    if path == [] then from == to
    else path[0] in sub && path[0].dir == from && Leads(sub, sub[path[0]], path[1..], to)
  }

  ghost predicate Reachable(sub: Subdirs, d: nat) { exists path :: Leads(sub, ROOT_CLUSTER, path, d) }

  /** A directory with a file in it or below it. */
  ghost predicate HasFiles(files: map<FileId, seq<Byte>>, sub: Subdirs, d: nat) {
    exists x, path :: x in files && Leads(sub, d, path, x.dir)
  }

  /** Every file but id that could be reached still can, with its data. */
  ghost predicate OthersStay(files: map<FileId, seq<Byte>>, sub: Subdirs, files': map<FileId, seq<Byte>>, sub': Subdirs,
                             id: FileId) {
    forall x :: x in files && x != id && Reachable(sub, x.dir) ==> StillThere(files, files', sub', x)
  }

  ghost predicate StillThere(files: map<FileId, seq<Byte>>, files': map<FileId, seq<Byte>>, sub': Subdirs, x: FileId)
    requires x in files
  {
    x in files' && files'[x] == files[x] && Reachable(sub', x.dir)
  }

  lemma {:induction false} LeadsOn(sub: Subdirs, a: nat, p: seq<FileId>, b: nat, q: seq<FileId>, c: nat)
    requires Leads(sub, a, p, b) && Leads(sub, b, q, c)
    ensures Leads(sub, a, p + q, c)
    decreases |p|
  {
    if p == [] {
      assert p + q == q;
    } else {
      LeadsOn(sub, sub[p[0]], p[1..], b, q, c);
      assert (p + q)[1..] == p[1..] + q;
    }
  }

  lemma {:induction false} LeadsLast(sub: Subdirs, a: nat, p: seq<FileId>, b: nat)
    requires Leads(sub, a, p, b) && p != []
    ensures var n := |p| - 1; p[n] in sub && sub[p[n]] == b && Leads(sub, a, p[..n], p[n].dir)
    decreases |p|
  {
    var n := |p| - 1;
    if n == 0 {
      assert p[1..] == [];
    } else {
      LeadsLast(sub, sub[p[0]], p[1..], b);
      assert p[1..][..n - 1] == p[..n][1..] && p[1..][n - 1] == p[n];
    }
  }

  /** A path leads nowhere when one of its entries is not a directory's. */
  lemma {:induction false} LeadsNowhere(sub: Subdirs, a: nat, p: seq<FileId>, i: nat, b: nat)
    requires i < |p| && p[i] !in sub
    ensures !Leads(sub, a, p, b)
    decreases |p|
  {
    if i > 0 && p[0] in sub { LeadsNowhere(sub, sub[p[0]], p[1..], i - 1, b); }
  }

  lemma AwayFromRoot(k: Catalog, sub: Subdirs, a: nat, p: seq<FileId>, b: nat)
    requires NamesFit(k, sub) && Leads(sub, a, p, b)
    ensures p == [] || b != ROOT_CLUSTER
  {
    if p != [] {
      LeadsLast(sub, a, p, b);
      assert SubdirFits(k, sub, p[|p| - 1]);
    }
  }

  /** Every directory has one entry and the root none, so there is only one path to a directory. */
  lemma {:induction false} PathIsUnique(k: Catalog, sub: Subdirs, p: seq<FileId>, q: seq<FileId>, d: nat)
    requires NamesFit(k, sub) && Leads(sub, ROOT_CLUSTER, p, d) && Leads(sub, ROOT_CLUSTER, q, d)
    ensures p == q
    decreases |p|
  {
    AwayFromRoot(k, sub, ROOT_CLUSTER, p, d);
    AwayFromRoot(k, sub, ROOT_CLUSTER, q, d);
    if p != [] && q != [] {
      LeadsLast(sub, ROOT_CLUSTER, p, d);
      LeadsLast(sub, ROOT_CLUSTER, q, d);
      PathIsUnique(k, sub, p[..|p| - 1], q[..|q| - 1], p[|p| - 1].dir);
      assert p == p[..|p| - 1] + [p[|p| - 1]] && q == q[..|q| - 1] + [q[|q| - 1]];
    }
  }

  /** A path to a directory that is not below the one at e goes on without it. */
  lemma {:induction false} PathKept(sub: Subdirs, e: FileId, a: nat, p: seq<FileId>, b: nat)
    requires e in sub && Leads(sub, a, p, b) && forall q :: !Leads(sub, sub[e], q, b)
    ensures Leads(SubdirsWithout(sub, e), a, p, b)
    decreases |p|
  {
    if p != [] {
      assert !Leads(sub, sub[e], p, b) && !Leads(sub, sub[e], p[1..], b);
      PathKept(sub, e, sub[p[0]], p[1..], b);
    }
  }

  lemma {:induction false} FewerLead(sub: Subdirs, e: FileId, a: nat, p: seq<FileId>, b: nat)
    requires e in sub && Leads(SubdirsWithout(sub, e), a, p, b)
    ensures Leads(sub, a, p, b)
    decreases |p|
  {
    if p != [] { FewerLead(sub, e, sub[p[0]], p[1..], b); }
  }

  /** What is in or below a directory cannot be reached once the directory's entry is gone. */
  lemma BelowIsLost(k: Catalog, sub: Subdirs, e: FileId, q: seq<FileId>, d: nat)
    requires NamesFit(k, sub) && e in sub && Reachable(sub, e.dir) && Leads(sub, sub[e], q, d)
    ensures Reachable(sub, d) && !Reachable(SubdirsWithout(sub, e), d)
  {
    var p :| Leads(sub, ROOT_CLUSTER, p, e.dir);
    LeadsOn(sub, e.dir, [e], sub[e], q, d);
    LeadsOn(sub, ROOT_CLUSTER, p, e.dir, [e] + q, d);
    var way := p + ([e] + q);
    forall r ensures !Leads(SubdirsWithout(sub, e), ROOT_CLUSTER, r, d) {
      if r == way {
        LeadsNowhere(SubdirsWithout(sub, e), ROOT_CLUSTER, way, |p|, d);
      } else if Leads(SubdirsWithout(sub, e), ROOT_CLUSTER, r, d) {
        FewerLead(sub, e, ROOT_CLUSTER, r, d);
        PathIsUnique(k, sub, r, way, d);
      }
    }
  }

  /** The directory that an entry is in is not below the directory of that entry. */
  lemma ParentStays(k: Catalog, sub: Subdirs, e: FileId)
    requires NamesFit(k, sub) && e in sub && Reachable(sub, e.dir)
    ensures Reachable(SubdirsWithout(sub, e), e.dir)
  {
    var p :| Leads(sub, ROOT_CLUSTER, p, e.dir);
    forall q ensures !Leads(sub, sub[e], q, e.dir) {
      if Leads(sub, sub[e], q, e.dir) {
        LeadsOn(sub, e.dir, [e], sub[e], q, e.dir);
        LeadsOn(sub, ROOT_CLUSTER, p, e.dir, [e] + q, e.dir);
        PathIsUnique(k, sub, p, p + ([e] + q), e.dir);
      }
    }
    PathKept(sub, e, ROOT_CLUSTER, p, e.dir);
  }

  lemma {:induction false} MoreLead(sub: Subdirs, id: FileId, c: nat, a: nat, p: seq<FileId>, b: nat)
    requires id !in sub && Leads(sub, a, p, b)
    ensures Leads(sub[id := c], a, p, b)
    decreases |p|
  {
    if p != [] { MoreLead(sub, id, c, sub[p[0]], p[1..], b); }
  }

  /** A directory added to one that can be reached can be reached, and so can all others. */
  lemma AddedReachable(sub: Subdirs, id: FileId, c: nat)
    requires id !in sub
    ensures Reachable(sub, id.dir) ==> Reachable(sub[id := c], c)
    ensures forall d :: Reachable(sub, d) ==> Reachable(sub[id := c], d)
  {
    forall d | Reachable(sub, d) ensures Reachable(sub[id := c], d) {
      var p :| Leads(sub, ROOT_CLUSTER, p, d);
      MoreLead(sub, id, c, ROOT_CLUSTER, p, d);
    }
    if Reachable(sub, id.dir) {
      var p :| Leads(sub[id := c], ROOT_CLUSTER, p, id.dir);
      LeadsOn(sub[id := c], ROOT_CLUSTER, p, id.dir, [id], c);
    }
  }

  lemma RootReachable(sub: Subdirs)
    ensures Reachable(sub, ROOT_CLUSTER)
  {
    assert Leads(sub, ROOT_CLUSTER, [], ROOT_CLUSTER);
  }

  /** A file put in the place of a directory: every other file that could be reached still can, with
      its data, exactly when the directory has no file in it or below it. */
  lemma DirReplacedExactly(k: Catalog, sub: Subdirs, e: FileId, data: seq<Byte>)
    requires NamesFit(k, sub) && e in sub && Reachable(sub, e.dir)
    ensures OthersStay(k.files, sub, FilesOutside(k.files, {sub[e]})[e := data], SubdirsWithout(sub, e), e)
            <==> !HasFiles(k.files, sub, sub[e])
  {
    var files', sub' := FilesOutside(k.files, {sub[e]})[e := data], SubdirsWithout(sub, e);
    assert SubdirFits(k, sub, e);
    if HasFiles(k.files, sub, sub[e]) {
      var x, q :| x in k.files && Leads(sub, sub[e], q, x.dir);
      BelowIsLost(k, sub, e, q, x.dir);
      assert !StillThere(k.files, files', sub', x);
    } else {
      forall x | x in k.files && x != e && Reachable(sub, x.dir) ensures StillThere(k.files, files', sub', x) {
        var p :| Leads(sub, ROOT_CLUSTER, p, x.dir);
        assert !Leads(sub, sub[e], [], x.dir);
        PathKept(sub, e, ROOT_CLUSTER, p, x.dir);
      }
    }
  }

  /** A file put where there was no directory disturbs no other. */
  lemma FilePutSpares(files: map<FileId, seq<Byte>>, sub: Subdirs, id: FileId, data: seq<Byte>)
    ensures OthersStay(files, sub, files[id := data], sub, id)
  {
    forall x | x in files && x != id && Reachable(sub, x.dir) ensures StillThere(files, files[id := data], sub, x) {}
  }

  lemma NamesSame(k: Catalog, k': Catalog, sub: Subdirs)
    requires NamesFit(k, sub) && k'.dirs == k.dirs && k'.files == k.files
    ensures NamesFit(k', sub)
  {
    forall id | id in sub ensures SubdirFits(k', sub, id) { assert SubdirFits(k, sub, id); }
    forall h, i | h in k'.dirs && 0 <= i < |k'.dirs[h]| ensures Known(k', sub, h, i) { assert Known(k, sub, h, i); }
  }

  lemma SubdirsInRange(k: Catalog, sub: Subdirs, h: nat)
    requires NamesFit(k, sub) && h in k.dirs
    ensures forall id :: id in sub && id.dir == h ==> id.index < |k.dirs[h]|
  {
    forall id | id in sub && id.dir == h ensures id.index < |k.dirs[h]| { assert SubdirFits(k, sub, id); }
  }

  /** A file added at the end of a directory. */
  lemma NamesFileAdded(k: Catalog, k': Catalog, sub: Subdirs, h: nat, lfns: seq<Entry>, e: Entry, data: seq<Byte>)
    requires NamesFit(k, sub) && h in k.dirs && forall i :: 0 <= i < |lfns| ==> LongName(lfns[i])
    requires k'.dirs == k.dirs[h := k.dirs[h] + (lfns + [e])]
             && k'.files == k.files[FileId(h, |k.dirs[h]| + |lfns|) := data]
    ensures NamesFit(k', sub)
  {
    forall id | id in sub ensures SubdirFits(k', sub, id) { assert SubdirFits(k, sub, id); }
    forall g, i | g in k'.dirs && 0 <= i < |k'.dirs[g]| ensures Known(k', sub, g, i) {
      if i < |k.dirs[g]| { assert Known(k, sub, g, i); }
    }
  }

  /** A new directory c and its entry in the parent. */
  lemma NamesDirAdded(k: Catalog, k': Catalog, sub: Subdirs, parent: nat, c: nat, lfns: seq<Entry>, e: Entry)
    requires NamesFit(k, sub) && parent in k.dirs && c !in k.dirs && c < ENTRIES && parent < ENTRIES && StartOf(e) == c
    requires forall i :: 0 <= i < |lfns| ==> LongName(lfns[i])
    requires forall id :: id in k.files ==> id.dir in k.dirs && id.index < |k.dirs[id.dir]|
    requires k'.dirs == k.dirs[c := DotEntries(c, parent)][parent := k.dirs[parent] + (lfns + [e])]
             && k'.files == k.files
    ensures NamesFit(k', sub[FileId(parent, |k.dirs[parent]| + |lfns|) := c])
  {
    var id' := FileId(parent, |k.dirs[parent]| + |lfns|);
    var sub' := sub[id' := c];
    DotsAreDots(c, parent);
    assert k'.dirs[parent][id'.index] == e;
    forall id | id in sub ensures SubdirFits(k, sub, id) && sub[id] != c && id != id' {}
    forall id | id in sub' ensures SubdirFits(k', sub', id) { if id != id' { assert SubdirFits(k, sub, id); } }
    forall g, i | g in k'.dirs && 0 <= i < |k'.dirs[g]| ensures Known(k', sub', g, i) {
      if g != c && i < |k.dirs[g]| { assert Known(k, sub, g, i); }
    }
  }

  lemma DotsAreDots(c: nat, parent: nat)
    requires c < ENTRIES && parent < ENTRIES
    ensures forall i :: 0 <= i < 2 ==> DotEntries(c, parent)[i][0] == DOT
  {
  }

  /** The first free slot, or the slot of a file, is given to a file. */
  lemma NamesFilePut(k: Catalog, k': Catalog, sub: Subdirs, h: nat, j: nat, e: Entry, data: seq<Byte>)
    requires NamesFit(k, sub) && h in k.dirs && j <= |k.dirs[h]| && FileId(h, j) !in sub
    requires k'.dirs == k.dirs[h := WithEntry(k.dirs[h], j, e)] && k'.files == k.files[FileId(h, j) := data]
    ensures NamesFit(k', sub)
  {
    forall id | id in sub ensures SubdirFits(k', sub, id) { assert SubdirFits(k, sub, id); }
    forall g, i | g in k'.dirs && 0 <= i < |k'.dirs[g]| ensures Known(k', sub, g, i) {
      if i < |k.dirs[g]| { assert Known(k, sub, g, i); }
    }
  }

  /** The slot of a directory is given to a file. */
  lemma NamesDirReplaced(k: Catalog, k': Catalog, sub: Subdirs, h: nat, j: nat, e: Entry, data: seq<Byte>)
    requires NamesFit(k, sub) && h in k.dirs && j < |k.dirs[h]| && FileId(h, j) in sub
    requires var d := sub[FileId(h, j)];
             k'.dirs == (k.dirs - {d})[h := WithEntry(k.dirs[h], j, e)]
                 && k'.files == FilesOutside(k.files, {d})[FileId(h, j) := data]
    ensures NamesFit(k', SubdirsWithout(sub, FileId(h, j)))
  {
    var sub' := SubdirsWithout(sub, FileId(h, j));
    assert SubdirFits(k, sub, FileId(h, j));
    forall id | id in sub' ensures SubdirFits(k', sub', id) { assert SubdirFits(k, sub, id); }
    forall g, i | g in k'.dirs && 0 <= i < |k'.dirs[g]| ensures Known(k', sub', g, i) { assert Known(k, sub, g, i); }
  }

  // ---------------------------------------------------------------- what each step keeps

  /** Chain h has the same clusters with the same contents. */
  ghost predicate SameChain(image: Image, k: Catalog, image': Image, k': Catalog, h: nat) {
    h in k.chains && h in k'.chains && k'.chains[h] == k.chains[h] && |image'| == |image| &&
    forall i :: 0 <= i < |k.chains[h]| ==> k.chains[h][i] < |image| && image'[k.chains[h][i]] == image[k.chains[h][i]]
  }

  /** A file whose entry and chain are as before is as before. */
  lemma FileUntouched(image: Image, k: Catalog, image': Image, k': Catalog, id: FileId)
    requires id in k.files && id in k'.files && k'.files[id] == k.files[id] && FileFits(image, k, id)
    requires id.dir in k'.dirs && id.index < |k'.dirs[id.dir]| && k'.dirs[id.dir][id.index] == k.dirs[id.dir][id.index]
    requires k.files[id] != [] ==> var h := StartOf(k.dirs[id.dir][id.index]); SameChain(image, k, image', k', h)
                                                                               && DataChain(k', h, id)
    ensures FileFits(image', k', id)
  {
    if k.files[id] != [] {
      FileKept(image, image', k.chains[StartOf(k.dirs[id.dir][id.index])], k.files[id]);
    }
  }

  lemma DirUntouched(image: Image, k: Catalog, image': Image, k': Catalog, h: nat)
    requires h in k.dirs && h in k'.dirs && k'.dirs[h] == k.dirs[h] && SameChain(image, k, image', k', h)
    requires DirFits(image, k.chains[h], k.dirs[h])
    ensures DirFits(image', k'.chains[h], k'.dirs[h])
  {
    DirKept(image, image', k.chains[h], k.dirs[h]);
  }

  /** Chains other than a new one keep their contents. */
  lemma OldChainSame(fat: Fat, image: Image, k: Catalog, s: Chain, image': Image, h: nat)
    requires |image| == |image'| == ENTRIES && FatFits(fat, k.chains, k.owner) && NewClusters(fat, s) && h in k.chains
    requires forall c :: 0 <= c < ENTRIES && c !in s ==> image'[c] == image[c]
    ensures SameChain(image, k, image', k.(chains := k.chains[s[0] := s], owner := OwnerWith(k.owner, s)), h)
  {
    ChainInRange(fat, k, h);
    forall i | 0 <= i < |k.chains[h]| ensures k.chains[h][i] !in s {
      assert fat[k.chains[h][i]] != 0;
    }
    NewIsUnused(fat, k.chains, k.owner, s, 0);
  }

  /** A new chain of data that no entry refers to yet. */
  lemma DataAdded(fat: Fat, image: Image, k: Catalog, s: Chain, fat': Fat, image': Image)
    requires DiskFits(fat, image, k) && NewClusters(fat, s) && Chained(fat, s, fat') && |image'| == ENTRIES
    requires forall c :: 0 <= c < ENTRIES && c !in s ==> image'[c] == image[c]
    ensures DiskFits(fat', image', k.(chains := k.chains[s[0] := s], owner := OwnerWith(k.owner, s)))
            && s[0] !in k.chains
  {
    var k' := k.(chains := k.chains[s[0] := s], owner := OwnerWith(k.owner, s));
    AddChain(fat, k.chains, k.owner, s, fat');
    forall h | h in k.dirs ensures DirFits(image', k'.chains[h], k'.dirs[h]) {
      OldChainSame(fat, image, k, s, image', h);
      DirUntouched(image, k, image', k', h);
    }
    forall id | id in k.files ensures FileFits(image', k', id) {
      assert FileFits(image, k, id);
      if k.files[id] != [] { OldChainSame(fat, image, k, s, image', StartOf(k.dirs[id.dir][id.index])); }
      FileUntouched(image, k, image', k', id);
    }
  }

  /** A directory entry written where no file has its entry. */
  lemma EntryWritten(fat: Fat, image: Image, k: Catalog, h: nat, g: nat, j: nat, e: Entry)
    requires DiskFits(fat, image, k) && h in k.dirs && h in k.chains && g < |k.chains[h]| && j < SLOTS && Live(e)
             && k.chains[h][g] < |image|
    requires FileId(h, g * SLOTS + j) !in k.files && g * SLOTS + j <= |k.dirs[h]|
    ensures DiskFits(fat, image[k.chains[h][g] := SetEntry(image[k.chains[h][g]], j, e)],
            k.(dirs := k.dirs[h := WithEntry(k.dirs[h], g * SLOTS + j, e)]))
  {
    hide FatFits, DirsFit, FilesFit, SetEntry, WithEntry;
    EntryDirs(fat, image, k, h, g, j, e);
    EntryFiles(fat, image, k, h, g, j, e);
  }

  lemma EntryDirs(fat: Fat, image: Image, k: Catalog, h: nat, g: nat, j: nat, e: Entry)
    requires DiskFits(fat, image, k) && h in k.dirs && h in k.chains && g < |k.chains[h]| && j < SLOTS && Live(e)
             && k.chains[h][g] < |image|
    requires g * SLOTS + j <= |k.dirs[h]|
    ensures DirsFit(image[k.chains[h][g] := SetEntry(image[k.chains[h][g]], j, e)],
            k.(dirs := k.dirs[h := WithEntry(k.dirs[h], g * SLOTS + j, e)]))
  {
    hide FatFits, FilesFit, SetEntry, WithEntry, DirFits;
    var c := k.chains[h][g];
    var image', k' := image[c := SetEntry(image[c], j, e)],
        k.(dirs := k.dirs[h := WithEntry(k.dirs[h], g * SLOTS + j, e)]);
    ChainInRange(fat, k, h);
    DirWritten(image, k.chains[h], k.dirs[h], g, j, e);
    forall d | d in k'.dirs ensures DirFits(image', k'.chains[d], k'.dirs[d]) {
      if d != h {
        OtherChainSame(fat, image, k, h, g, image', k', d);
        DirUntouched(image, k, image', k', d);
      }
    }
  }

  lemma EntryFiles(fat: Fat, image: Image, k: Catalog, h: nat, g: nat, j: nat, e: Entry)
    requires DiskFits(fat, image, k) && h in k.dirs && h in k.chains && g < |k.chains[h]| && j < SLOTS
             && k.chains[h][g] < |image|
    requires FileId(h, g * SLOTS + j) !in k.files && g * SLOTS + j <= |k.dirs[h]|
    ensures FilesFit(image[k.chains[h][g] := SetEntry(image[k.chains[h][g]], j, e)],
            k.(dirs := k.dirs[h := WithEntry(k.dirs[h], g * SLOTS + j, e)]))
  {
    hide FatFits, DirsFit, SetEntry;
    var c := k.chains[h][g];
    var image', k' := image[c := SetEntry(image[c], j, e)],
        k.(dirs := k.dirs[h := WithEntry(k.dirs[h], g * SLOTS + j, e)]);
    forall id | id in k'.files ensures FileFits(image', k', id) {
      assert FileFits(image, k, id);
      if k.files[id] != [] { OtherChainSame(fat, image, k, h, g, image', k', StartOf(k.dirs[id.dir][id.index])); }
      FileUntouched(image, k, image', k', id);
    }
  }

  lemma OtherChainSame(fat: Fat, image: Image, k: Catalog, h: nat, g: nat, image': Image, k': Catalog, d: nat)
    requires |image| == |image'| == ENTRIES && FatFits(fat, k.chains, k.owner) && h in k.chains && g < |k.chains[h]|
             && d in k.chains && d != h
    requires k'.chains == k.chains && forall c :: 0 <= c < ENTRIES && c != k.chains[h][g] ==> image'[c] == image[c]
    ensures SameChain(image, k, image', k', d)
  {
    ChainInRange(fat, k, d);
    NotInOther(fat, k.chains, k.owner, h, g, d);
  }

  /** No file on the disk has its data in chain h. */
  ghost predicate Unclaimed(k: Catalog, h: nat) {
    forall id :: id in k.files && k.files[id] != [] && id.dir in k.dirs && id.index < |k.dirs[id.dir]| ==>
        StartOf(k.dirs[id.dir][id.index]) != h
  }

  /** An entry and its chain of data become a file. */
  lemma FileRegistered(fat: Fat, image: Image, k: Catalog, id: FileId, data: seq<Byte>, k': Catalog)
    requires DiskFits(fat, image, k) && id !in k.files && id.dir in k.dirs && id.index < |k.dirs[id.dir]|
    requires var e := k.dirs[id.dir][id.index]; var h := StartOf(e);
             && AttrOf(e) == ATTR_ARCHIVE && SizeOf(e) == |data| && (data == [] ==> h == 0)
             && (data != [] ==> h in k.chains && h !in k.dirs && FileIs(image, k.chains[h], data) && Unclaimed(k, h))
             && k' == k.(files := k.files[id := data], fileOf := if data == [] then k.fileOf else k.fileOf[h := id])
    ensures DiskFits(fat, image, k')
  {
    forall d | d in k'.files ensures FileFits(image, k', d) {
      if d != id {
        assert FileFits(image, k, d);
      }
    }
  }

  /** A file's chain is freed and the file forgotten; its entry is left behind. */
  lemma FileDropped(fat: Fat, image: Image, k: Catalog, id: FileId, fat': Fat)
    requires DiskFits(fat, image, k) && id in k.files && k.files[id] != []
    requires FileFits(image, k, id) && Freed(fat, k.chains[StartOf(k.dirs[id.dir][id.index])], fat')
    ensures var h := StartOf(k.dirs[id.dir][id.index]);
            DiskFits(fat', image, k.(chains := k.chains - {h}, owner := OwnerWithout(k.owner, h),
                files := k.files - {id}))
  {
    var h := StartOf(k.dirs[id.dir][id.index]);
    var k' := k.(chains := k.chains - {h}, owner := OwnerWithout(k.owner, h), files := k.files - {id});
    hide FatFits, DirFits;
    RemoveChain(fat, k.chains, k.owner, h, fat');
    forall d | d in k'.files ensures FileFits(image, k', d) { assert FileFits(image, k, d); }
  }

  lemma EmptyFileDropped(fat: Fat, image: Image, k: Catalog, id: FileId)
    requires DiskFits(fat, image, k)
    ensures DiskFits(fat, image, k.(files := k.files - {id}))
  {
    var k' := k.(files := k.files - {id});
    forall d | d in k'.files ensures FileFits(image, k', d) { assert FileFits(image, k, d); }
  }

  /** A directory's chain is freed and the directory forgotten with the files in it. */
  lemma DirDropped(fat: Fat, image: Image, k: Catalog, d: nat, fat': Fat)
    requires DiskFits(fat, image, k) && d in k.dirs && d in k.chains && Freed(fat, k.chains[d], fat')
    ensures DiskFits(fat', image, k.(chains := k.chains - {d}, owner := OwnerWithout(k.owner, d), dirs := k.dirs - {d},
                                     files := FilesOutside(k.files, {d})))
  {
    var k' := k.(chains := k.chains - {d}, owner := OwnerWithout(k.owner, d), dirs := k.dirs - {d},
        files := FilesOutside(k.files, {d}));
    hide FatFits, DirFits;
    RemoveChain(fat, k.chains, k.owner, d, fat');
    forall id | id in k'.files ensures FileFits(image, k', id) { assert FileFits(image, k, id); }
  }

  /** A new chain becomes a directory. */
  lemma DirCreated(fat: Fat, image: Image, k: Catalog, c: nat, es: seq<Entry>, k': Catalog)
    requires DiskFits(fat, image, k) && c in k.chains && c !in k.dirs && Unclaimed(k, c)
             && DirFits(image, k.chains[c], es)
    requires k' == k.(dirs := k.dirs[c := es])
    ensures DiskFits(fat, image, k')
  {
    forall id | id in k'.files ensures FileFits(image, k', id) {
      assert FileFits(image, k, id);
    }
    hide FatFits, DirFits;
  }

  /** A directory gets one more, empty cluster. */
  lemma DirLengthened(fat: Fat, image: Image, k: Catalog, h: nat, c: nat, fat': Fat, image': Image, k': Catalog)
    requires DiskFits(fat, image, k) && h in k.dirs && h in k.chains && k.chains[h] != [] && 2 <= c < ENTRIES
             && fat[c] == 0
    requires forall x :: 0 <= x < ENTRIES ==> fat'[x] == if x == c then EOC else if x == k.chains[h][|k.chains[h]| - 1]
             then c else fat[x]
    requires |image'| == ENTRIES && image'[c] == Zeros(CLUSTER_SIZE) && forall x :: 0 <= x < ENTRIES && x != c ==>
             image'[x] == image[x]
    requires k' == k.(chains := k.chains[h := k.chains[h] + [c]], owner := k.owner[c := Place(h, |k.chains[h]|)])
    ensures DiskFits(fat', image', k')
  {
    hide FatFits, DirFits;
    GrowChain(fat, k.chains, k.owner, h, c, fat');
    forall d | d in k'.dirs ensures DirFits(image', k'.chains[d], k'.dirs[d]) {
      ChainInRange(fat, k, d);
      if d == h {
        DirGrown(image, k.chains[h], k.dirs[h], c, image');
      } else {
        DirUntouched(image, k, image', k', d);
      }
    }
    forall id | id in k'.files ensures FileFits(image', k', id) {
      assert FileFits(image, k, id);
      if k.files[id] != [] { ChainInRange(fat, k, StartOf(k.dirs[id.dir][id.index])); }
      FileUntouched(image, k, image', k', id);
    }
  }

  lemma MapReplaced(m: map<FileId, seq<Byte>>, id: FileId, data: seq<Byte>)
    ensures (m - {id})[id := data] == m[id := data]
  {
  }

  /** The directory's entries after an update: the first entry of that name is replaced if it is in
      the first cluster; otherwise a short entry goes into the next slot of the first cluster, or,
      when that is full, long and short entries go to the end. */
  function Updated(es: seq<Entry>, key: Key, lfns: seq<Entry>, e: Entry): seq<Entry> {
    if Find(es, key, 0) < SLOTS then WithEntry(es, Find(es, key, 0), e)
    else es + (lfns + [e])
  }

  function UpdatedAt(es: seq<Entry>, key: Key, lfns: seq<Entry>): nat {
    if Find(es, key, 0) < SLOTS then Find(es, key, 0) else |es| + |lfns|
  }

  lemma ReferableInSlot(image: Image, k: Catalog, image': Image, k': Catalog, h: nat, j: nat, e: Entry, start: nat,
                        data: seq<Byte>)
    requires Referable(image, k, start, data) && FilesFit(image, k) && OthersSame(image, k, image', k', h)
    requires h in k.dirs && j <= |k.dirs[h]| && FileId(h, j) !in k.files
             && k' == k.(dirs := k.dirs[h := WithEntry(k.dirs[h], j, e)])
    ensures Referable(image', k', start, data)
  {
    if data != [] {
      assert SameChain(image, k, image', k', start);
      FileKept(image, image', k.chains[start], data);
      forall id | id in k'.files && k'.files[id] != [] && id.dir in k'.dirs && id.index < |k'.dirs[id.dir]|
        ensures StartOf(k'.dirs[id.dir][id.index]) != start
      {
        assert FileFits(image, k, id);
      }
    }
  }

  predicate Matches(e: Entry, key: Key) { KeyOf(e) == key && AttrOf(e) != ATTR_LONG_NAME }

  /** The first entry from i on with this name, or the number of entries. */
  function Find(es: seq<Entry>, key: Key, i: nat): (q: nat)
    requires i <= |es|
    ensures i <= q <= |es|
    decreases |es| - i
  {
    if i == |es| then i else if Matches(es[i], key) then i else Find(es, key, i + 1)
  }

  /** The directory bit of an entry's attributes. */
  predicate IsDirectory(e: Entry) { var attr: int := AttrOf(e); attr / 16 % 2 == 1 && attr != ATTR_LONG_NAME }

  lemma {:induction false} FindUnless(es: seq<Entry>, es': seq<Entry>, key: Key, i: nat, q: nat)
    requires i <= q < |es'| && q <= |es| && Matches(es'[q], key)
    requires forall j :: i <= j < q ==> es'[j] == es[j] && !Matches(es[j], key)
    ensures Find(es', key, i) == q
    decreases q - i
  {
    if i < q { FindUnless(es, es', key, i + 1, q); }
  }

  lemma {:induction false} FoundFirst(es: seq<Entry>, key: Key, i: nat, j: nat)
    requires i <= |es| && i <= j < Find(es, key, i)
    ensures !Matches(es[j], key)
    decreases j - i
  {
    if i < j { FoundFirst(es, key, i + 1, j); }
  }

  lemma {:induction false} FoundMatches(es: seq<Entry>, key: Key, i: nat)
    requires i <= |es| && Find(es, key, i) < |es|
    ensures Matches(es[Find(es, key, i)], key)
    decreases |es| - i
  {
    if !Matches(es[i], key) { FoundMatches(es, key, i + 1); }
  }

  /** Looking the name up after an update finds the entry just written exactly when the name was not
      in the directory or was in its first cluster; a file of that name further on hides the update. */
  lemma UpdateSeen(es: seq<Entry>, key: Key, lfns: seq<Entry>, e: Entry)
    requires KeyOf(e) == key && AttrOf(e) == ATTR_ARCHIVE && forall i :: 0 <= i < |lfns| ==>
             AttrOf(lfns[i]) == ATTR_LONG_NAME
    ensures var q := Find(es, key, 0);
            && (Find(Updated(es, key, lfns, e), key, 0) == UpdatedAt(es, key, lfns) <==> q < SLOTS || q == |es|)
            && (SLOTS <= q < |es| ==> Find(Updated(es, key, lfns, e), key, 0) == q
                                      && Updated(es, key, lfns, e)[q] == es[q])
  {
    var q, es' := Find(es, key, 0), Updated(es, key, lfns, e);
    forall j | 0 <= j < q ensures !Matches(es[j], key) { FoundFirst(es, key, 0, j); }
    if q < SLOTS {
      FindUnless(es, es', key, 0, q);
    } else if q < |es| {
      FoundMatches(es, key, 0);
      FindUnless(es, es', key, 0, q);
    } else {
      assert es'[|es| + |lfns|] == e;
      FindUnless(es + lfns, es', key, 0, |es| + |lfns|);
    }
  }

  /** The first match is at q when nothing before it matches. */
  lemma FindAt(es: seq<Entry>, key: Key, q: nat)
    requires q < |es| && Matches(es[q], key) && forall j :: 0 <= j < q ==> !Matches(es[j], key)
    ensures Find(es, key, 0) == q
  {
    FindUnless(es, es, key, 0, q);
  }

  lemma {:induction false} FindNone(es: seq<Entry>, key: Key, i: nat)
    requires i <= |es| && forall j :: i <= j < |es| ==> !Matches(es[j], key)
    ensures Find(es, key, i) == |es|
    decreases |es| - i
  {
    if i < |es| { FindNone(es, key, i + 1); }
  }

  lemma FindFrom(es: seq<Entry>, key: Key, i: nat)
    requires i <= |es|
    ensures Find(es, key, i) >= i
  {
  }

  lemma FirstCluster(image: Image, s: Chain, es: seq<Entry>, j: nat)
    requires DirFits(image, s, es) && s != [] && j < SLOTS && j <= |es|
    ensures s[0] < |image| && image[s[0]][32 * j] == EntryAt(image[s[0]], j)[0]
    ensures if j < |es| then EntryAt(image[s[0]], j) == es[j] && Live(es[j]) else image[s[0]][32 * j] == 0
  {
    assert SlotFits(image[s[0]], es, 0, j);
  }

  /** The entries a new directory starts with. */
  function DotEntries(c: nat, parent: nat): (r: seq<Entry>)
    requires c < ENTRIES && parent < ENTRIES
    ensures |r| == 2
  {
    [MakeEntry([46, 32, 32, 32, 32, 32, 32, 32, 32, 32, 32], ATTR_DIRECTORY, c, 0),
     MakeEntry([46, 46, 32, 32, 32, 32, 32, 32, 32, 32, 32], ATTR_DIRECTORY, if parent != ROOT_CLUSTER then parent
         else 0, 0)]
  }

  function DirBlock(c: nat, parent: nat): Block
    requires c < ENTRIES && parent < ENTRIES
  {
    var dot: seq<Byte>, dotdot: seq<Byte> := DotEntries(c, parent)[0], DotEntries(c, parent)[1];
    dot + dotdot + Zeros(CLUSTER_SIZE - 64)
  }

  lemma ParentInRange(fat: Fat, image: Image, k: Catalog, h: nat)
    requires DiskFits(fat, image, k) && h in k.dirs
    ensures h < ENTRIES
  {
    ChainInRange(fat, k, h);
  }

  lemma NewDirFits(image: Image, c: nat, parent: nat)
    requires |image| == ENTRIES && c < ENTRIES && parent < ENTRIES
    requires image[c] == DirBlock(c, parent)
    ensures DirFits(image, [c], DotEntries(c, parent))
  {
    EntryRoundTrip([46, 32, 32, 32, 32, 32, 32, 32, 32, 32, 32], ATTR_DIRECTORY, c, 0);
    EntryRoundTrip([46, 46, 32, 32, 32, 32, 32, 32, 32, 32, 32], ATTR_DIRECTORY, if parent != ROOT_CLUSTER then parent
        else 0, 0);
    var es := DotEntries(c, parent);
    forall g, j | 0 <= g < 1 && 0 <= j < SLOTS ensures SlotFits(image[[c][g]], es, g, j) {
      if j >= 2 { assert EntryAt(image[c], j)[0] == image[c][32 * j] == 0; }
    }
  }

  lemma AppendedNone(k: Catalog, h: nat, more: seq<Entry>)
    requires h in k.dirs
    ensures Appended(k, k, h, more[..0])
  {
    assert k.dirs[h] + more[..0] == k.dirs[h];
  }

  lemma AppendedMore(k: Catalog, k': Catalog, k'': Catalog, h: nat, more: seq<Entry>, i: nat)
    requires i < |more| && Appended(k, k', h, more[..i]) && Appended(k', k'', h, [more[i]])
    ensures Appended(k, k'', h, more[..i + 1]) && h in k''.dirs
  {
    assert more[..i + 1] == more[..i] + [more[i]];
    assert k.dirs[h] + more[..i] + [more[i]] == k.dirs[h] + more[..i + 1];
  }

  /** k' is k with entries added to directory h. */
  ghost predicate Appended(k: Catalog, k': Catalog, h: nat, more: seq<Entry>) {
    h in k.dirs && k'.dirs == k.dirs[h := k.dirs[h] + more] && k'.files == k.files && k'.fileOf == k.fileOf
  }

  /** A short entry for a file with this data. */
  ghost predicate EntryFor(e: Entry, data: seq<Byte>) {
    AttrOf(e) == ATTR_ARCHIVE && SizeOf(e) == |data| && (data == [] ==> StartOf(e) == 0)
  }

  /** Chain start holds data and is nobody's yet. */
  ghost predicate Referable(image: Image, k: Catalog, start: nat, data: seq<Byte>) {
    data != [] ==> start in k.chains && start !in k.dirs && FileIs(image, k.chains[start], data) && Unclaimed(k, start)
  }

  lemma ReferableKept(image: Image, k: Catalog, image': Image, k': Catalog, h: nat, more: seq<Entry>, start: nat,
                      data: seq<Byte>)
    requires Referable(image, k, start, data) && Appended(k, k', h, more) && OthersSame(image, k, image', k', h)
             && FilesFit(image, k) && h in k.dirs
    ensures Referable(image', k', start, data)
  {
    if data != [] {
      assert SameChain(image, k, image', k', start);
      FileKept(image, image', k.chains[start], data);
      forall id | id in k'.files && k'.files[id] != [] && id.dir in k'.dirs && id.index < |k'.dirs[id.dir]|
        ensures StartOf(k'.dirs[id.dir][id.index]) != start
      {
        assert FileFits(image, k, id);
      }
    }
  }

  lemma DirSize(image: Image, s: Chain, es: seq<Entry>)
    requires DirFits(image, s, es)
    ensures |es| <= |s| * SLOTS
  {
  }

  /** Chains other than h are as they were. */
  ghost predicate OthersSame(image: Image, k: Catalog, image': Image, k': Catalog, h: nat) {
    k'.chains.Keys == k.chains.Keys && forall d :: d in k.chains && d != h ==> SameChain(image, k, image', k', d)
  }

  lemma OthersSameAll(fat: Fat, image: Image, k: Catalog, h: nat)
    requires DiskFits(fat, image, k)
    ensures OthersSame(image, k, image, k, h)
  {
    forall d | d in k.chains && d != h ensures SameChain(image, k, image, k, d) { ChainInRange(fat, k, d); }
  }

  lemma OthersSameTwice(image: Image, k: Catalog, image': Image, k': Catalog, image'': Image, k'': Catalog, h: nat)
    requires OthersSame(image, k, image', k', h) && OthersSame(image', k', image'', k'', h)
    ensures OthersSame(image, k, image'', k'', h)
  {
    forall d | d in k.chains && d != h ensures SameChain(image, k, image'', k'', d) {
      assert SameChain(image, k, image', k', d) && SameChain(image', k', image'', k'', d);
    }
  }

  lemma SlotOnly(fat: Fat, image: Image, k: Catalog, h: nat, g: nat, b: Block, k': Catalog)
    requires DiskFits(fat, image, k) && h in k.chains && g < |k.chains[h]| && k.chains[h][g] < ENTRIES
             && k'.chains == k.chains
    ensures OthersSame(image, k, image[k.chains[h][g] := b], k', h)
  {
    forall d | d in k.chains && d != h ensures SameChain(image, k, image[k.chains[h][g] := b], k', d) {
      OtherChainSame(fat, image, k, h, g, image[k.chains[h][g] := b], k', d);
    }
  }

  lemma LengthenedOnly(fat: Fat, image: Image, k: Catalog, h: nat, c: nat, image': Image, k': Catalog)
    requires DiskFits(fat, image, k) && h in k.chains && c < ENTRIES && fat[c] == 0
    requires |image'| == ENTRIES && forall x :: 0 <= x < ENTRIES && x != c ==> image'[x] == image[x]
    requires k'.chains == k.chains[h := k.chains[h] + [c]]
    ensures OthersSame(image, k, image', k', h)
  {
    forall d | d in k.chains && d != h ensures SameChain(image, k, image', k', d) { ChainInRange(fat, k, d); }
  }

  /** The first free slot comes right after the last entry. */
  lemma FirstFree(image: Image, s: Chain, es: seq<Entry>, g: nat, j: nat)
    requires DirFits(image, s, es) && g < |s| && g * SLOTS <= |es| && j <= SLOTS
    requires (j < SLOTS ==> !Live(EntryAt(image[s[g]], j))) && forall i :: 0 <= i < j ==> Live(EntryAt(image[s[g]], i))
    ensures if j < SLOTS then g * SLOTS + j == |es| else (g + 1) * SLOTS <= |es|
  {
    if j < SLOTS { assert SlotFits(image[s[g]], es, g, j); }
    if j > 0 { assert SlotFits(image[s[g]], es, g, j - 1); }
  }

  lemma NoFileAtEnd(image: Image, k: Catalog, h: nat)
    requires FilesFit(image, k) && h in k.dirs
    ensures forall id :: id in k.files && id.dir == h ==> id.index < |k.dirs[h]|
  {
    forall id | id in k.files && id.dir == h ensures id.index < |k.dirs[h]| { assert FileFits(image, k, id); }
  }

  lemma FilesAreArchives(image: Image, k: Catalog)
    requires FilesFit(image, k)
    ensures forall id :: id in k.files ==>
              id.dir in k.dirs && id.index < |k.dirs[id.dir]| && AttrOf(k.dirs[id.dir][id.index]) == ATTR_ARCHIVE
  {
    forall id | id in k.files
      ensures id.dir in k.dirs && id.index < |k.dirs[id.dir]| && AttrOf(k.dirs[id.dir][id.index]) == ATTR_ARCHIVE
    {
      assert FileFits(image, k, id);
    }
  }

  /** What a walk along a directory relies on. */
  lemma DirOnDisk(fat: Fat, image: Image, k: Catalog, h: nat)
    requires DiskFits(fat, image, k) && h in k.dirs
    ensures h in k.chains && FatFits(fat, k.chains, k.owner) && DirFits(image, k.chains[h], k.dirs[h])
            && FilesFit(image, k)
    ensures |k.chains[h]| > 0 && k.chains[h][0] == h && FileId(h, |k.dirs[h]|) !in k.files
    ensures forall i :: 0 <= i < |k.chains[h]| ==> 2 <= k.chains[h][i] < ENTRIES
  {
    ChainInRange(fat, k, h);
    NoFileAtEnd(image, k, h);
  }

  lemma NextCluster(fat: Fat, k: Catalog, h: nat, g: nat)
    requires FatFits(fat, k.chains, k.owner) && h in k.chains && g < |k.chains[h]| && k.chains[h][g] < ENTRIES
    ensures if g + 1 < |k.chains[h]| then 2 <= fat[k.chains[h][g]] == k.chains[h][g + 1] < ENTRIES
            else fat[k.chains[h][g]] == EOC
  {
    assert CellFits(fat, k.chains, k.owner, h, g);
    if g + 1 < |k.chains[h]| { assert CellFits(fat, k.chains, k.owner, h, g + 1); }
  }

  /** Only chains have been added or lengthened. */
  ghost predicate SameButData(k: Catalog, k': Catalog) {
    k'.dirs == k.dirs && k'.files == k.files && k'.fileOf == k.fileOf
  }

  lemma NewIsUnclaimed(fat: Fat, image: Image, k: Catalog, h: nat)
    requires DiskFits(fat, image, k) && h !in k.chains
    ensures Unclaimed(k, h) && h !in k.dirs
  {
    forall id | id in k.files && k.files[id] != [] && id.dir in k.dirs && id.index < |k.dirs[id.dir]|
        ensures StartOf(k.dirs[id.dir][id.index]) != h {
      assert FileFits(image, k, id);
    }
  }
}
