/** A reader of the disk that knows only the bytes of the clusters and the table, at the offsets of
    the Microsoft FAT32 File System Specification, finds every file and directory the builder made. */
module FatLaws {
  import opened FatChains
  import opened FatCatalog

  // ---------------------------------------------------------------- the reader

  /** The n-th cluster after c. */
  function ClusterAt(fat: Fat, c: nat, n: nat): nat
    decreases n
  {
    if n == 0 || c >= ENTRIES then c else ClusterAt(fat, fat[c], n - 1)
  }

  /** The contents of n clusters from c on, or fewer if the chain ends. */
  function Follow(fat: Fat, image: Image, c: nat, n: nat): seq<Byte>
    requires |image| == ENTRIES
    decreases n
  {
    if n == 0 || c < 2 || c >= ENTRIES then [] else image[c] + Follow(fat, image, fat[c], n - 1)
  }

  /** A file of the given size. */
  function ReadFile(fat: Fat, image: Image, start: nat, size: nat): seq<Byte>
    requires |image| == ENTRIES
  {
    var data := Follow(fat, image, start, (size + 4095) / 4096);
    if size <= |data| then data[..size] else data
  }

  /** Entry i of the directory that starts at cluster h. */
  function RawEntry(fat: Fat, image: Image, h: nat, i: nat): seq<Byte>
    requires |image| == ENTRIES
  {
    var c := ClusterAt(fat, h, i / 128);
    if c < ENTRIES then image[c][32 * (i % 128)..32 * (i % 128) + 32] else []
  }

  function Le32(b: seq<Byte>, i: nat): nat
    requires i + 4 <= |b|
  {
    var b0: int, b1: int, b2: int, b3: int := b[i], b[i + 1], b[i + 2], b[i + 3];
    b0 + 0x100 * b1 + 0x1_0000 * b2 + 0x100_0000 * b3
  }

  /** First cluster: the low half at 26, the high half at 20. */
  function RawStart(b: seq<Byte>): nat
    requires |b| == 32
  {
    var b0: int, b1: int, b2: int, b3: int := b[26], b[27], b[20], b[21];
    b0 + 0x100 * b1 + 0x1_0000 * b2 + 0x100_0000 * b3
  }

  // ---------------------------------------------------------------- what it finds

  lemma RawFields(e: Entry)
    ensures RawStart(e) == StartOf(e) && Le32(e, 28) == SizeOf(e) && e[11] == AttrOf(e) && e[..11] == KeyOf(e)
  {
  }

  lemma {:induction false} ChainReached(fat: Fat, k: Catalog, h: nat, i: nat, n: nat)
    requires FatFits(fat, k.chains, k.owner) && h in k.chains && i + n < |k.chains[h]|
    ensures ClusterAt(fat, k.chains[h][i], n) == k.chains[h][i + n]
    decreases n
  {
    if n > 0 {
      ChainInRange(fat, k, h);
      NextCluster(fat, k, h, i);
      ChainReached(fat, k, h, i + 1, n - 1);
    }
  }

  lemma {:induction false} ChainFollowed(fat: Fat, image: Image, k: Catalog, h: nat, i: nat, n: nat)
    requires |image| == ENTRIES && FatFits(fat, k.chains, k.owner) && h in k.chains && i + n <= |k.chains[h]|
    requires forall j :: 0 <= j < |k.chains[h]| ==> k.chains[h][j] < |image|
    ensures i < |k.chains[h]| ==>
              Stored(image, k.chains[h], i) + Follow(fat, image, k.chains[h][i], n) == Stored(image, k.chains[h], i + n)
    decreases n
  {
    var s := k.chains[h];
    if n > 0 {
      ChainInRange(fat, k, h);
      NextCluster(fat, k, h, i);
      ChainFollowed(fat, image, k, h, i + 1, n - 1);
      assert Stored(image, s, i + 1) == Stored(image, s, i) + image[s[i]];
      if i + 1 < |s| {
        assert Stored(image, s, i) + Follow(fat, image, s[i], n) ==
               Stored(image, s, i + 1) + Follow(fat, image, s[i + 1], n - 1);
      } else {
        assert Follow(fat, image, s[i], n) == image[s[i]] + [];
      }
    }
  }

  /** Every entry of a directory is where the reader looks for it, and after the last one comes a
      zero byte or the end of the chain. */
  lemma DirectoryRead(fat: Fat, image: Image, k: Catalog, h: nat, i: nat)
    requires DiskFits(fat, image, k) && h in k.dirs
    ensures i < |k.dirs[h]| ==> RawEntry(fat, image, h, i) == k.dirs[h][i] && k.dirs[h][i][0] !in {0, 0xE5}
    ensures i == |k.dirs[h]| && i / 128 < |k.chains[h]| ==>
              |RawEntry(fat, image, h, i)| == 32 && RawEntry(fat, image, h, i)[0] == 0
  {
    DirOnDisk(fat, image, k, h);
    var s, g, j := k.chains[h], i / 128, i % 128;
    if g < |s| {
      ChainReached(fat, k, h, 0, g);
      assert SlotFits(image[s[g]], k.dirs[h], g, j);
    }
  }

  /** The reader finds every file: its entry has attribute 0x20, its size, and a first cluster from
      which the table leads to exactly its data. */
  lemma FileRead(fat: Fat, image: Image, k: Catalog, id: FileId)
    requires DiskFits(fat, image, k) && id in k.files
    ensures var raw, data := RawEntry(fat, image, id.dir, id.index), k.files[id];
            && |raw| == 32 && raw[11] == 0x20 && Le32(raw, 28) == |data|
            && ReadFile(fat, image, RawStart(raw), |data|) == data
  {
    hide FatFits, DirsFit, Follow, FileIs;
    var data := k.files[id];
    assert FileFits(image, k, id);
    DirectoryRead(fat, image, k, id.dir, id.index);
    var e := k.dirs[id.dir][id.index];
    RawFields(e);
    if data != [] {
      DataRead(fat, image, k, StartOf(e), data);
    }
  }

  lemma DataRead(fat: Fat, image: Image, k: Catalog, h: nat, data: seq<Byte>)
    requires |image| == ENTRIES && FatFits(fat, k.chains, k.owner) && h in k.chains
             && FileIs(image, k.chains[h], data) && data != []
    ensures ReadFile(fat, image, h, |data|) == data
  {
    var s, n := k.chains[h], (|data| + 4095) / 4096;
    ChainInRange(fat, k, h);
    ChainFollowed(fat, image, k, h, 0, n);
    assert Follow(fat, image, h, n) == Stored(image, s, n);
    StoredStarts(image, s, n);
  }

  lemma {:induction false} StoredStarts(image: Image, s: Chain, n: nat)
    requires n <= |s| && forall i :: 0 <= i < |s| ==> s[i] < |image|
    ensures Stored(image, s, |s|)[..n * CLUSTER_SIZE] == Stored(image, s, n)
    decreases |s| - n
  {
    StoredGrows(image, s, n, |s|);
  }

  lemma {:induction false} StoredGrows(image: Image, s: Chain, n: nat, m: nat)
    requires n <= m <= |s| && forall i :: 0 <= i < |s| ==> s[i] < |image|
    ensures Stored(image, s, m)[..n * CLUSTER_SIZE] == Stored(image, s, n)
    decreases m
  {
    if n < m {
      StoredGrows(image, s, n, m - 1);
      assert Stored(image, s, m)[..n * CLUSTER_SIZE] == Stored(image, s, m - 1)[..n * CLUSTER_SIZE];
    }
  }

  /** The reader gets from a directory's entry to the directory. */
  lemma SubdirectoryRead(fat: Fat, image: Image, k: Catalog, sub: Subdirs, id: FileId)
    requires DiskFits(fat, image, k) && NamesFit(k, sub) && id in sub
    ensures var raw := RawEntry(fat, image, id.dir, id.index); |raw| == 32 && RawStart(raw) == sub[id]
  {
    hide FatFits, DirsFit, FilesFit;
    assert SubdirFits(k, sub, id);
    DirectoryRead(fat, image, k, id.dir, id.index);
    RawFields(k.dirs[id.dir][id.index]);
  }

  // ---------------------------------------------------------------- what is written

  /** An entry's bytes: name, attribute, zeros, and numbers with the low byte first. */
  lemma EntryLayout(key: Key, attr: Byte, start: nat, size: nat)
    requires start < 0x1_0000_0000 && size < 0x1_0000_0000
    ensures var e := MakeEntry(key, attr, start, size);
            && e[..11] == key && e[11] == attr && RawStart(e) == start && Le32(e, 28) == size
            && (forall i :: 12 <= i < 20 || 22 <= i < 26 ==> e[i] == 0)
  {
    EntryRoundTrip(key, attr, start, size);
    RawFields(MakeEntry(key, attr, start, size));
  }

  /** A new directory begins with "." for itself and ".." for its parent, or 0 for the root. */
  lemma NewDirectory(image: Image, c: nat, parent: nat)
    requires |image| == ENTRIES && c < ENTRIES && parent < ENTRIES && image[c] == DirBlock(c, parent)
    ensures var dot, dots := image[c][..32], image[c][32..64];
            && dot[..11] == [46, 32, 32, 32, 32, 32, 32, 32, 32, 32, 32]
            && dots[..11] == [46, 46, 32, 32, 32, 32, 32, 32, 32, 32, 32]
            && dot[11] == 0x10 && dots[11] == 0x10 && Le32(dot, 28) == 0 && Le32(dots, 28) == 0
            && RawStart(dot) == c && RawStart(dots) == (if parent == 2 then 0 else parent)
            && forall i :: 64 <= i < 4096 ==> image[c][i] == 0
  {
    hide DirBlock, MakeEntry, RawStart, Le32;
    EntryLayout([46, 32, 32, 32, 32, 32, 32, 32, 32, 32, 32], 0x10, c, 0);
    EntryLayout([46, 46, 32, 32, 32, 32, 32, 32, 32, 32, 32], 0x10, if parent != 2 then parent else 0, 0);
    DotBlock(c, parent);
  }

  /** The reader finds them on the disk. */
  lemma DotsRead(fat: Fat, image: Image, k: Catalog, c: nat, parent: nat)
    requires DiskFits(fat, image, k) && c in k.dirs && parent < ENTRIES && c < ENTRIES
    requires |k.dirs[c]| >= 2 && k.dirs[c][..2] == DotEntries(c, parent)
    ensures var dot, dots := RawEntry(fat, image, c, 0), RawEntry(fat, image, c, 1);
            && |dot| == 32 && dot[0] == 46 && dot[11] == 0x10 && RawStart(dot) == c
            && |dots| == 32 && dots[0] == 46 && dots[1] == 46 && dots[11] == 0x10
            && RawStart(dots) == (if parent == 2 then 0 else parent)
  {
    hide DiskFits, MakeEntry, RawStart, Le32, RawEntry;
    DirectoryRead(fat, image, k, c, 0);
    DirectoryRead(fat, image, k, c, 1);
    assert k.dirs[c][0] == k.dirs[c][..2][0] && k.dirs[c][1] == k.dirs[c][..2][1];
    var e0, e1 := DotEntries(c, parent)[0], DotEntries(c, parent)[1];
    EntryLayout([46, 32, 32, 32, 32, 32, 32, 32, 32, 32, 32], 0x10, c, 0);
    EntryLayout([46, 46, 32, 32, 32, 32, 32, 32, 32, 32, 32], 0x10, if parent != 2 then parent else 0, 0);
    assert e0[0] == e0[..11][0] && e1[0] == e1[..11][0] && e1[1] == e1[..11][1];
  }

  lemma DotBlock(c: nat, parent: nat)
    requires c < ENTRIES && parent < ENTRIES
    ensures DirBlock(c, parent)[..32] == DotEntries(c, parent)[0] && DirBlock(c, parent)[32..64] == DotEntries(c,
            parent)[1]
    ensures forall i :: 64 <= i < 4096 ==> DirBlock(c, parent)[i] == 0
  {
    hide DotEntries;
  }

  /** The search for a name gives the first entry with these 11 bytes that is no long name. */
  lemma FoundMeans(es: seq<Entry>, key: Key)
    ensures var q := Find(es, key, 0);
            && (q < |es| ==> es[q][..11] == key && es[q][11] != 0x0F)
            && forall j :: 0 <= j < q ==> es[j][..11] != key || es[j][11] == 0x0F
  {
    var q := Find(es, key, 0);
    if q < |es| { FoundMatches(es, key, 0); }
    forall j | 0 <= j < q ensures es[j][..11] != key || es[j][11] == 0x0F { FoundFirst(es, key, 0, j); }
  }

  /** An entry is a directory's when bit 4 of its attribute is set, as in 0x10, and not in the 0x20 of files or
      the 0x0F of long names. */
  lemma DirectoryBit(e: Entry)
    ensures IsDirectory(e) <==> e[11] % 32 >= 16
    ensures (e[11] == 0x10 ==> IsDirectory(e)) && (e[11] in {0x20, 0x0F} ==> !IsDirectory(e))
  {
  }

  /** An update changes the entry it finds among the first 128, or adds one at the end, and leaves all
      others in their places. */
  lemma UpdateMeans(es: seq<Entry>, key: Key, lfns: seq<Entry>, e: Entry)
    ensures var q, es' := Find(es, key, 0), Updated(es, key, lfns, e);
            && (q < 128 && q < |es| ==> es' == es[q := e])
            && (q < 128 && q == |es| ==> es' == es + [e])
            && (q >= 128 ==> es' == es + lfns + [e])
            && UpdatedAt(es, key, lfns) < |es'| && es'[UpdatedAt(es, key, lfns)] == e
  {
    assert es + (lfns + [e]) == es + lfns + [e];
  }
}
