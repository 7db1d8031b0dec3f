/** The FAT32 image builder (scripts/make_disk.py): cluster allocation, file data, directories that
    grow, and files updated in place. */
module Fat32 {
  import opened FatChains
  import opened FatCatalog

  class Disk {
    const fat: array<nat>
    const image: array<Block>
    var nextFree: nat
    ghost var k: Catalog
    ghost var subdirs: Subdirs

    ghost predicate Arrays()
      reads fat, image
    {
      fat.Length == image.Length == ENTRIES
    }

    ghost predicate Valid()
      reads `k, `nextFree, fat, image
    {
      Arrays() && ROOT_CLUSTER < nextFree <= ENTRIES && DiskFits(fat[..], image[..], k)
    }

    /** No cluster is free. */
    predicate Full()
      requires fat.Length == ENTRIES
      reads fat
    {
      forall c :: ROOT_CLUSTER < c < ENTRIES ==> fat[c] != 0
    }

    /** Valid between operations, when every entry is accounted for. */
    ghost predicate Settled()
      reads this, fat, image
    {
      Valid() && NamesFit(k, subdirs)
    }

    constructor ()
      ensures Settled() && fresh(fat) && fresh(image)
      ensures k.dirs == map[ROOT_CLUSTER := []] && k.files == map[] && subdirs == map[]
    {
      var table := new nat[ENTRIES](i => 0);
      var clusters := new Block[ENTRIES](i => Zeros(CLUSTER_SIZE));
      table[0], table[1], table[ROOT_CLUSTER] := 0x0FFFFFF8, 0x0FFFFFFF, EOC;
      fat, image, nextFree := table, clusters, ROOT_CLUSTER + 1;
      k := Catalog(map[ROOT_CLUSTER := [ROOT_CLUSTER]], map[ROOT_CLUSTER := Place(ROOT_CLUSTER, 0)],
          map[ROOT_CLUSTER := []], map[], map[]);
      subdirs := map[];
      new;
      assert CellFits(fat[..], k.chains, k.owner, ROOT_CLUSTER, 0);
    }

    /** alloc_cluster: the next free cluster, zeroed; it fails only when every cluster is in use. */
    method AllocCluster() returns (ok: bool, c: nat)
      requires Arrays() && ROOT_CLUSTER < nextFree <= ENTRIES
      modifies `nextFree, fat, image
      ensures ROOT_CLUSTER < nextFree <= ENTRIES
      ensures if ok then !old(Full()) else old(Full()) && Full()
      ensures ok ==> ROOT_CLUSTER < c < ENTRIES && old(fat[c]) == 0 && fat[..] == old(fat[..])[c := EOC]
      ensures ok ==> image[..] == old(image[..])[c := Zeros(CLUSTER_SIZE)]
    {
      c := nextFree;
      while c < ENTRIES
        invariant nextFree <= c <= ENTRIES && forall x :: nextFree <= x < c ==> fat[x] != 0
        invariant unchanged(`nextFree) && unchanged(fat) && unchanged(image)
      {
        if fat[c] == 0 {
          fat[c], nextFree, image[c] := EOC, c + 1, Zeros(CLUSTER_SIZE);
          return true, c;
        }
        c := c + 1;
      }
      c := ROOT_CLUSTER + 1;
      while c < nextFree
        invariant ROOT_CLUSTER < c <= nextFree && forall x :: ROOT_CLUSTER < x < c ==> fat[x] != 0
        invariant unchanged(`nextFree) && unchanged(fat) && unchanged(image)
      {
        if fat[c] == 0 {
          fat[c], nextFree, image[c] := EOC, c + 1, Zeros(CLUSTER_SIZE);
          return true, c;
        }
        c := c + 1;
      }
      ok := false;
    }

    method AllocMany(n: nat) returns (ok: bool, s: Chain)
      requires Arrays() && ROOT_CLUSTER < nextFree <= ENTRIES
      modifies `nextFree, fat, image
      ensures !ok ==> Arrays() && Full()
      ensures ROOT_CLUSTER < nextFree <= ENTRIES
      ensures ok ==> |s| == n && Distinct(s) && forall i :: 0 <= i < n ==> ROOT_CLUSTER < s[i] < ENTRIES
                                                                           && old(fat[s[i]]) == 0 && fat[s[i]] == EOC
      ensures ok ==> forall c :: 0 <= c < ENTRIES && c !in s ==> fat[c] == old(fat[c]) && image[c] == old(image[c])
    {
      s := [];
      for i := 0 to n
        invariant ROOT_CLUSTER < nextFree <= ENTRIES && |s| == i && Distinct(s)
        invariant forall j :: 0 <= j < i ==> ROOT_CLUSTER < s[j] < ENTRIES && old(fat[s[j]]) == 0 && fat[s[j]] == EOC
        invariant forall c :: 0 <= c < ENTRIES && c !in s ==> fat[c] == old(fat[c]) && image[c] == old(image[c])
      {
        label L:
        var c;
        ok, c := AllocCluster();
        if !ok { return; }
        assert forall x :: 0 <= x < ENTRIES ==> fat[x] == fat[..][x] && image[x] == image[..][x];
        s := s + [c];
      }
      ok := true;
    }

    method LinkAll(s: Chain)
      requires Arrays() && s != [] && Distinct(s) && forall i :: 0 <= i < |s| ==> s[i] < ENTRIES && fat[s[i]] == EOC
      modifies fat
      ensures forall i :: 0 <= i < |s| ==> fat[s[i]] == NextIn(s, i)
      ensures forall c :: 0 <= c < ENTRIES && c !in s ==> fat[c] == old(fat[c])
    {
      for i := 0 to |s| - 1
        invariant forall j :: 0 <= j < |s| ==> fat[s[j]] == if j < i then s[j + 1] else EOC
        invariant forall c :: 0 <= c < ENTRIES && c !in s ==> fat[c] == old(fat[c])
      {
        fat[s[i]] := s[i + 1];
      }
      fat[s[|s| - 1]] := EOC;
    }

    /** Put data into the clusters of s, one after the other. */
    method FillAll(s: Chain, data: seq<Byte>)
      requires Arrays() && Distinct(s) && (|s| - 1) * CLUSTER_SIZE < |data| <= |s| * CLUSTER_SIZE
      requires forall i :: 0 <= i < |s| ==> s[i] < ENTRIES
      modifies image
      ensures FileIs(image[..], s, data)
      ensures forall c :: 0 <= c < ENTRIES && c !in s ==> image[c] == old(image[c])
    {
      hide Stored, Filled;
      var offset := 0;
      for i := 0 to |s|
        invariant offset == (if i < |s| then i * CLUSTER_SIZE else |data|)
        invariant Stored(image[..], s, i)[..offset] == data[..offset]
        invariant forall c :: 0 <= c < ENTRIES && c !in s ==> image[c] == old(image[c])
      {
        ghost var before := image[..];
        var chunk := data[offset..Least(offset + CLUSTER_SIZE, |data|)];
        image[s[i]] := Filled(image[s[i]], chunk);
        StoredStep(before, s, i, data, chunk);
        assert image[..] == before[s[i] := Filled(before[s[i]], chunk)];
        offset := offset + |chunk|;
      }
    }

    /** write_file_data: a new chain that holds data. */
    method WriteFileData(data: seq<Byte>) returns (ok: bool, start: nat, size: nat)
      requires Valid()
      modifies `k, `nextFree, fat, image
      ensures !ok ==> Arrays() && Full()
      ensures ok ==> Valid() && size == |data| && start < ENTRIES && SameButData(old(k), k)
      ensures ok && data == [] ==> start == 0 && k == old(k)
      ensures ok ==> Referable(image[..], k, start, data)
    {
      hide FileIs, OwnerWith, FatFits, DirFits, FilesFit;
      if data == [] {
        return true, 0, 0;
      }
      ghost var fat0, image0 := fat[..], image[..];
      var s;
      ok, s := AllocMany((|data| + CLUSTER_SIZE - 1) / CLUSTER_SIZE);
      if !ok { return false, 0, 0; }
      LinkAll(s);
      FillAll(s, data);
      start, size := s[0], |data|;
      assert NewClusters(fat0, s) && Chained(fat0, s, fat[..]);
      DataAdded(fat0, image0, k, s, fat[..], image[..]);
      NewIsUnclaimed(fat0, image0, k, s[0]);
      k := k.(chains := k.chains[s[0] := s], owner := OwnerWith(k.owner, s));
    }

    /** The first slot of a cluster that is unused or deleted. */
    method FindFree(c: nat) returns (j: nat)
      requires Arrays() && c < ENTRIES
      ensures j <= SLOTS && (j < SLOTS ==> !Live(EntryAt(image[c], j))) && forall i :: 0 <= i < j ==>
              Live(EntryAt(image[c], i))
    {
      j := 0;
      while j < SLOTS
        invariant j <= SLOTS && forall i :: 0 <= i < j ==> Live(EntryAt(image[c], i))
      {
        if image[c][32 * j] == 0x00 || image[c][32 * j] == 0xE5 {
          return;
        }
        j := j + 1;
      }
    }

    method WriteSlot(h: nat, ghost g: nat, c: nat, j: nat, e: Entry)
      requires Valid() && h in k.dirs && h in k.chains && g < |k.chains[h]| && c == k.chains[h][g] < ENTRIES
               && j < SLOTS && Live(e)
      requires g * SLOTS + j <= |k.dirs[h]| && FileId(h, g * SLOTS + j) !in k.files
      modifies `k, image
      ensures Valid() && OthersSame(old(image[..]), old(k), image[..], k, h) && k.chains == old(k.chains)
      ensures k == old(k).(dirs := old(k.dirs)[h := WithEntry(old(k.dirs)[h], g * SLOTS + j, e)])
    {
      ghost var es := WithEntry(k.dirs[h], g * SLOTS + j, e);
      ghost var before := image[..];
      EntryWritten(fat[..], before, k, h, g, j, e);
      SlotOnly(fat[..], before, k, h, g, SetEntry(before[c], j, e), k.(dirs := k.dirs[h := es]));
      image[c] := SetEntry(image[c], j, e);
      assert image[..] == before[c := SetEntry(before[c], j, e)];
      k := k.(dirs := k.dirs[h := es]);
    }

    /** Add a cluster to the directory whose last cluster is last. */
    method Lengthen(h: nat, last: nat) returns (ok: bool, c: nat)
      requires Valid() && h in k.dirs && h in k.chains && k.chains[h] != []
               && last == k.chains[h][|k.chains[h]| - 1] < ENTRIES
      modifies `k, `nextFree, fat, image
      ensures !ok ==> Arrays() && Full()
      ensures ok ==> Valid() && OthersSame(old(image[..]), old(k), image[..], k, h) && SameButData(old(k), k)
      ensures ok ==> h in k.chains && k.chains[h] == old(k.chains)[h] + [c]
    {
      ghost var fat0, image0, k0 := fat[..], image[..], k;
      ChainInRange(fat0, k, h);
      ok, c := AllocCluster();
      if !ok { return; }
      assert forall x :: 0 <= x < ENTRIES ==> fat[x] == fat[..][x];
      fat[last] := c;
      ghost var k' := k.(chains := k.chains[h := k.chains[h] + [c]], owner := k.owner[c := Place(h, |k.chains[h]|)]);
      DirLengthened(fat0, image0, k, h, c, fat[..], image[..], k');
      LengthenedOnly(fat0, image0, k, h, c, image[..], k');
      k := k';
    }

    /** _append_to_dir: the directory's list of entries gets one more, in a new cluster if need be. */
    method AppendToDir(h: nat, e: Entry) returns (ok: bool)
      requires Valid() && h in k.dirs && Live(e)
      modifies `k, `nextFree, fat, image
      ensures !ok ==> Arrays() && Full()
      ensures ok ==> Valid() && Appended(old(k), k, h, [e]) && OthersSame(old(image[..]), old(k), image[..], k, h)
    {
      hide DiskFits, OthersSame, FatFits, DirFits, FilesFit;
      ok := true;
      var cur := h;
      ghost var g, grown := 0, false;
      OthersSameAll(fat[..], image[..], k, h);
      DirOnDisk(fat[..], image[..], k, h);
      while true
        invariant Valid() && SameButData(old(k), k) && OthersSame(old(image[..]), old(k), image[..], k, h)
        invariant h in k.chains && g < |k.chains[h]| && cur == k.chains[h][g] && g * SLOTS <= |k.dirs[h]|
                  && (grown ==> g * SLOTS == |k.dirs[h]|)
        decreases !grown, |k.chains[h]| - g
      {
        DirOnDisk(fat[..], image[..], k, h);
        var j := FindFree(cur);
        FirstFree(image[..], k.chains[h], k.dirs[h], g, j);
        ghost var image1, k1 := image[..], k;
        if j < SLOTS {
          WriteSlot(h, g, cur, j, e);
          OthersSameTwice(old(image[..]), old(k), image1, k1, image[..], k, h);
          return;
        }
        grown := grown || g + 1 == |k.chains[h]|;
        ok, cur := FollowDir(h, cur, g);
        if !ok { return; }
        OthersSameTwice(old(image[..]), old(k), image1, k1, image[..], k, h);
        g := g + 1;
      }
    }

    /** The cluster after cur in a directory all of whose slots so far are taken; a new one if cur is the last. */
    method FollowDir(h: nat, cur: nat, ghost g: nat) returns (ok: bool, nxt: nat)
      requires Valid() && h in k.dirs && h in k.chains && g < |k.chains[h]| && cur == k.chains[h][g]
               && (g + 1) * SLOTS <= |k.dirs[h]|
      modifies `k, `nextFree, fat, image
      ensures !ok ==> Arrays() && Full()
      ensures ok ==> Valid() && SameButData(old(k), k) && OthersSame(old(image[..]), old(k), image[..], k, h)
      ensures ok ==> h in k.chains && g + 1 < |k.chains[h]| && nxt == k.chains[h][g + 1]
      ensures ok && g + 1 == |old(k.chains)[h]| ==> (g + 1) * SLOTS == |k.dirs[h]|
      ensures ok && g + 1 < |old(k.chains)[h]| ==> k == old(k)
    {
      hide DiskFits, OthersSame, FatFits, DirFits, FilesFit;
      DirOnDisk(fat[..], image[..], k, h);
      NextCluster(fat[..], k, h, g);
      OthersSameAll(fat[..], image[..], k, h);
      DirSize(image[..], k.chains[h], k.dirs[h]);
      ok, nxt := true, fat[cur];
      if nxt >= 0x0FFFFFF8 || nxt < 2 {
        ok, nxt := Lengthen(h, cur);
      }
    }

    /** Append several entries. */
    method AppendAll(h: nat, more: seq<Entry>) returns (ok: bool)
      requires Valid() && h in k.dirs && forall i :: 0 <= i < |more| ==> Live(more[i])
      modifies `k, `nextFree, fat, image
      ensures !ok ==> Arrays() && Full()
      ensures ok ==> Valid() && Appended(old(k), k, h, more) && OthersSame(old(image[..]), old(k), image[..], k, h)
    {
      hide DiskFits, OthersSame, Appended;
      OthersSameAll(fat[..], image[..], k, h);
      AppendedNone(k, h, more);
      ok := true;
      for i := 0 to |more|
        invariant Valid() && h in k.dirs && Appended(old(k), k, h, more[..i])
                  && OthersSame(old(image[..]), old(k), image[..], k, h)
      {
        ghost var image1, k1 := image[..], k;
        ok := AppendToDir(h, more[i]);
        if !ok { return; }
        OthersSameTwice(old(image[..]), old(k), image1, k1, image[..], k, h);
        AppendedMore(old(k), k1, k, h, more, i);
      }
      assert more[..|more|] == more;
    }

    /** Turn the entry at id and the chain it starts into a file. */
    ghost method Register(id: FileId, data: seq<Byte>)
      requires Valid() && id !in k.files && id.dir in k.dirs && id.index < |k.dirs[id.dir]|
      requires EntryFor(k.dirs[id.dir][id.index], data)
               && Referable(image[..], k, StartOf(k.dirs[id.dir][id.index]), data)
      modifies `k
      ensures Valid() && k.dirs == old(k.dirs) && k.chains == old(k.chains) && k.files == old(k.files)[id := data]
    {
      var h := StartOf(k.dirs[id.dir][id.index]);
      var k' := k.(files := k.files[id := data], fileOf := if data == [] then k.fileOf else k.fileOf[h := id]);
      FileRegistered(fat[..], image[..], k, id, data, k');
      k := k';
    }

    /** add_file: data, long-name entries, short entry. */
    method AddFile(h: nat, key: Key, lfns: seq<Entry>, data: seq<Byte>) returns (ok: bool, ghost e: Entry)
      requires Settled() && h in k.dirs && key[0] != 0 && key[0] != 0xE5 && |data| < 0x1_0000_0000
      requires forall i :: 0 <= i < |lfns| ==> LongName(lfns[i])
      modifies `k, `nextFree, fat, image
      ensures !ok ==> Arrays() && Full()
      ensures ok ==> Settled() && EntryFor(e, data) && KeyOf(e) == key
                     && k.dirs == old(k.dirs)[h := old(k.dirs)[h] + (lfns + [e])]
      ensures ok ==> k.files == old(k.files)[FileId(h, |old(k.dirs)[h]| + |lfns|) := data]
    {
      hide Disk.Valid, MakeEntry, Referable, NamesFit;
      var start, size;
      e := Zeros(32);
      ok, start, size := WriteFileData(data);
      if !ok { return; }
      EntryRoundTrip(key, ATTR_ARCHIVE, start, size);
      var entry := MakeEntry(key, ATTR_ARCHIVE, start, size);
      e := entry;
      ok := AppendEntries(h, lfns, entry, data);
      if ok { NamesFileAdded(old(k), k, subdirs, h, lfns, e, data); }
    }

    lemma EndIsFree(h: nat)
      requires Valid() && h in k.dirs
      ensures FilesFit(image[..], k) && forall id :: id in k.files && id.dir == h ==> id.index < |k.dirs[h]|
    {
      NoFileAtEnd(image[..], k, h);
    }

    /** The entries for a file whose data is in the chain that the last of them starts. */
    method AppendEntries(h: nat, lfns: seq<Entry>, e: Entry, ghost data: seq<Byte>) returns (ok: bool)
      requires Valid() && h in k.dirs && Live(e) && EntryFor(e, data) && Referable(image[..], k, StartOf(e), data)
      requires forall i :: 0 <= i < |lfns| ==> Live(lfns[i])
      modifies `k, `nextFree, fat, image
      ensures !ok ==> Arrays() && Full()
      ensures ok ==> Valid() && k.dirs == old(k.dirs)[h := old(k.dirs)[h] + (lfns + [e])]
      ensures ok ==> k.files == old(k.files)[FileId(h, |old(k.dirs)[h]| + |lfns|) := data]
    {
      hide Disk.Valid, OthersSame, Referable, EntryFor, FilesFit, StartOf;
      ghost var image1, k1 := image[..], k;
      ghost var id := FileId(h, |k1.dirs[h]| + |lfns|);
      EndIsFree(h);
      ok := AppendAll(h, lfns + [e]);
      if !ok { return; }
      ReferableKept(image1, k1, image[..], k, h, lfns + [e], StartOf(e), data);
      assert k.dirs[h][id.index] == e;
      Register(id, data);
    }

    /** add_directory: a cluster with . and .., and an entry for it in the parent. */
    method AddDirectory(parent: nat, key: Key, lfns: seq<Entry>) returns (ok: bool, c: nat)
      requires Settled() && parent in k.dirs && key[0] != 0 && key[0] != 0xE5 && forall i :: 0 <= i < |lfns| ==>
               LongName(lfns[i])
      modifies this, fat, image
      ensures !ok ==> Arrays() && Full()
      ensures ok ==> Settled() && c !in old(k.dirs) && c < ENTRIES && k.files == old(k.files)
      ensures ok ==> subdirs == old(subdirs)[FileId(parent, |old(k.dirs)[parent]| + |lfns|) := c]
      ensures ok ==> k.dirs == old(k.dirs)[c := DotEntries(c, parent)][parent := old(k.dirs)[parent]
              + (lfns + [MakeEntry(key, ATTR_DIRECTORY, c, 0)])]
    {
      hide Disk.Valid, DotEntries, MakeEntry, OthersSame, NamesFit, FilesFit;
      FilesInRange(parent);
      ok, c := NewDirectory(parent);
      if !ok { return; }
      EntryRoundTrip(key, ATTR_DIRECTORY, c, 0);
      var e := MakeEntry(key, ATTR_DIRECTORY, c, 0);
      ok := AppendAll(parent, lfns + [e]);
      if !ok { return; }
      NamesDirAdded(old(k), k, subdirs, parent, c, lfns, e);
      subdirs := subdirs[FileId(parent, |old(k.dirs)[parent]| + |lfns|) := c];
    }

    lemma FilesInRange(h: nat)
      requires Valid() && h in k.dirs
      ensures h < ENTRIES && forall id :: id in k.files ==> id.dir in k.dirs && id.index < |k.dirs[id.dir]|
    {
      ParentInRange(fat[..], image[..], k, h);
      forall id | id in k.files ensures id.dir in k.dirs && id.index < |k.dirs[id.dir]|
          { assert FileFits(image[..], k, id); }
    }

    method NewDirectory(parent: nat) returns (ok: bool, c: nat)
      requires Valid() && parent in k.dirs
      modifies `k, `nextFree, fat, image
      ensures !ok ==> Arrays() && Full()
      ensures ok ==> Valid() && c !in old(k.dirs) && c < ENTRIES && k.files == old(k.files)
                     && k.dirs == old(k.dirs)[c := DotEntries(c, parent)]
    {
      ghost var fat0, image0, k0 := fat[..], image[..], k;
      ParentInRange(fat0, image0, k, parent);
      ok, c := AllocCluster();
      if !ok { return; }
      var dots := DotEntries(c, parent);
      image[c] := DirBlock(c, parent);
      assert NewClusters(fat0, [c]) && Chained(fat0, [c], fat[..]);
      DataAdded(fat0, image0, k, [c], fat[..], image[..]);
      ghost var k1 := k.(chains := k.chains[c := [c]], owner := OwnerWith(k.owner, [c]));
      NewIsUnclaimed(fat0, image0, k, c);
      NewDirFits(image[..], c, parent);
      DirCreated(fat[..], image[..], k1, c, dots, k1.(dirs := k1.dirs[c := dots]));
      k := k1.(dirs := k1.dirs[c := dots]);
    }

    lemma TableOnDisk()
      requires Valid()
      ensures fat.Length == ENTRIES && FatFits(fat[..], k.chains, k.owner)
    {
    }

    /** Clear the table entries of the chain that begins at start, if there is one. */
    method FreeChain(start: nat)
      requires Valid() && (start < 2 || start in k.chains)
      modifies fat
      ensures start < 2 ==> fat[..] == old(fat[..])
      ensures start >= 2 ==> Freed(old(fat[..]), k.chains[start], fat[..])
    {
      hide Disk.Valid, FatFits, Freed;
      ghost var fat0, i := fat[..], 0;
      TableOnDisk();
      ghost var s := if start < 2 then [] else k.chains[start];
      if start >= 2 { ChainInRange(fat0, k, start); }
      NothingFreed(fat0, s[..0]);
      var cur := start;
      while 2 <= cur < 0x0FFFFFF8
        invariant i <= |s| && cur == (if i < |s| then s[i] else if start < 2 then start else EOC)
        invariant Freed(fat0, s[..i], fat[..]) && (start < 2 ==> fat[..] == fat0)
        decreases |s| - i
      {
        NextCluster(fat0, k, start, i);
        assert s[i] !in s[..i];
        FreedMore(fat0, s, i, fat[..]);
        ghost var now := fat[..];
        var nxt := fat[cur];
        fat[cur] := 0;
        assert fat[..] == now[cur := 0];
        cur := nxt;
        i := i + 1;
      }
      assert s[..i] == s;
    }

    /** Look for key in the first cluster of a directory, up to the first unused slot. */
    method ScanDir(h: nat, key: Key) returns (j: nat, hit: bool)
      requires Valid() && h in k.dirs
      ensures hit ==> j < SLOTS && j < |k.dirs[h]| && j == Find(k.dirs[h], key, 0)
      ensures !hit && j < SLOTS ==> j == |k.dirs[h]| == Find(k.dirs[h], key, 0)
      ensures !hit && j >= SLOTS ==> j == SLOTS <= |k.dirs[h]| && Find(k.dirs[h], key, 0) >= SLOTS
    {
      ghost var es := k.dirs[h];
      DirOnDisk(fat[..], image[..], k, h);
      hide DiskFits, FatFits;
      j := 0;
      while j < SLOTS
        invariant j <= SLOTS && j <= |es| && Find(es, key, 0) == Find(es, key, j)
      {
        FirstCluster(image[..], k.chains[h], es, j);
        if image[h][32 * j] == 0x00 {
          return j, false;
        }
        var e := EntryAt(image[h], j);
        if e[..11] == key && e[11] != ATTR_LONG_NAME {
          return j, true;
        }
        j := j + 1;
      }
      FindFrom(es, key, SLOTS);
      return SLOTS, false;
    }

    /** The directories that an update of slot j frees: none, or the one whose entry is there. */
    ghost function Gone(h: nat, j: nat): set<nat>
      reads this
    {
      if FileId(h, j) in subdirs then {subdirs[FileId(h, j)]} else {}
    }

    /** Free the clusters of the entry in slot j, before its new contents are written.  If it is a
        directory, the files in it are lost. */
    method DropEntry(h: nat, j: nat)
      requires Settled() && h in k.dirs && j < SLOTS && j < |k.dirs[h]|
               && (FileId(h, j) in k.files || FileId(h, j) in subdirs)
      modifies `k, fat
      ensures Valid() && k.dirs == old(k.dirs) - Gone(h, j) && h in k.dirs
      ensures k.files == FilesOutside(old(k.files), Gone(h, j)) - {FileId(h, j)}
    {
      ghost var id, fat0 := FileId(h, j), fat[..];
      DirOnDisk(fat0, image[..], k, h);
      FirstCluster(image[..], k.chains[h], k.dirs[h], j);
      EntryOwner(h, j);
      AllOutside(k.files);
      var start := StartOf(EntryAt(image[h], j));
      hide DiskFits, NamesFit, StartOf, FilesOutside;
      FreeChain(start);
      ghost var k' := k.(files := k.files - {id});
      if id in k.files {
        if start >= 2 {
          FileDropped(fat0, image[..], k, id, fat[..]);
          k' := k'.(chains := k.chains - {start}, owner := OwnerWithout(k.owner, start));
        } else {
          EmptyFileDropped(fat0, image[..], k, id);
        }
      } else {
        DirDropped(fat0, image[..], k, start, fat[..]);
        k' := k.(chains := k.chains - {start}, owner := OwnerWithout(k.owner, start), dirs := k.dirs - {start},
                 files := FilesOutside(k.files, {start}));
        NotThere(k.files, {start}, id);
      }
      k := k';
    }

    /** The chain that an entry starts is its file's or its directory's. */
    lemma EntryOwner(h: nat, j: nat)
      requires Settled() && h in k.dirs && j < |k.dirs[h]| && (FileId(h, j) in k.files || FileId(h, j) in subdirs)
      ensures var start := StartOf(k.dirs[h][j]);
              && (start < 2 || start in k.chains)
              && (FileId(h, j) in k.files ==> FileId(h, j) !in subdirs && FileFits(image[..], k, FileId(h, j))
                                              && (start >= 2 <==> k.files[FileId(h, j)] != []))
              && (FileId(h, j) in subdirs ==> start == subdirs[FileId(h, j)] && start in k.dirs && start in k.chains
                                              && start != h && start >= 2)
    {
      var id, start := FileId(h, j), StartOf(k.dirs[h][j]);
      if id in subdirs { assert SubdirFits(k, subdirs, id); }
      if id in k.files { assert FileFits(image[..], k, id); }
      if start in k.chains { ChainInRange(fat[..], k, start); }
    }

    /** Write a file's short entry into slot j of the first cluster. */
    method PutEntry(h: nat, j: nat, e: Entry, ghost data: seq<Byte>)
      requires Valid() && h in k.dirs && j < SLOTS && j <= |k.dirs[h]| && FileId(h, j) !in k.files
      requires Live(e) && EntryFor(e, data) && Referable(image[..], k, StartOf(e), data)
      modifies `k, image
      ensures Valid() && k.dirs == old(k.dirs)[h := WithEntry(old(k.dirs)[h], j, e)]
              && k.files == old(k.files)[FileId(h, j) := data]
    {
      hide Disk.Valid, Referable, EntryFor, OthersSame, FilesFit;
      ghost var image0, k0 := image[..], k;
      DirInPlace(h);
      WriteSlot(h, 0, h, j, e);
      ReferableInSlot(image0, k0, image[..], k, h, j, e, StartOf(e), data);
      Register(FileId(h, j), data);
    }

    lemma DirInPlace(h: nat)
      requires Valid() && h in k.dirs
      ensures h in k.chains && |k.chains[h]| > 0 && k.chains[h][0] == h < ENTRIES && FilesFit(image[..], k)
    {
      DirOnDisk(fat[..], image[..], k, h);
    }

    /** An entry that matches a name is a file's or a directory's. */
    lemma MatchKnown(h: nat, key: Key)
      requires Settled() && h in k.dirs && key[0] != DOT && Find(k.dirs[h], key, 0) < |k.dirs[h]|
      ensures var id := FileId(h, Find(k.dirs[h], key, 0)); id in k.files || id in subdirs
    {
      var q := Find(k.dirs[h], key, 0);
      FoundMatches(k.dirs[h], key, 0);
      assert Known(k, subdirs, h, q) && k.dirs[h][q][0] == KeyOf(k.dirs[h][q])[0];
    }

    /** The directories that an update of this name frees: one, if it is the name of a directory whose
        entry is in the first cluster. */
    ghost function GoneBy(h: nat, key: Key): set<nat>
      requires h in k.dirs
      reads this
    {
      if Find(k.dirs[h], key, 0) < SLOTS then Gone(h, Find(k.dirs[h], key, 0)) else {}
    }

    /** Whether an update of this name frees a directory with a file in it or below it. */
    ghost predicate LosesFiles(h: nat, key: Key)
      requires h in k.dirs
      reads this
    {
      var id := FileId(h, Find(k.dirs[h], key, 0));
      id.index < SLOTS && id in subdirs && HasFiles(k.files, subdirs, subdirs[id])
    }

    /** One file of update_dir_files: it gets the new data.  In a directory that can be reached from the
        root, every other file that could be reached still can, with its data, exactly when the name is
        not that of a directory with a file in it or below it. */
    method UpdateFile(h: nat, key: Key, lfns: seq<Entry>, data: seq<Byte>) returns (ok: bool, ghost e: Entry)
      requires Settled() && h in k.dirs && key[0] != 0 && key[0] != 0xE5 && key[0] != DOT && |data| < 0x1_0000_0000
      requires forall i :: 0 <= i < |lfns| ==> LongName(lfns[i])
      modifies this, fat, image
      ensures !ok ==> Arrays() && Full()
      ensures ok ==> Settled() && EntryFor(e, data) && KeyOf(e) == key
      ensures var es, gone := old(k.dirs)[h], old(GoneBy(h, key));
              ok ==> && k.dirs == (old(k.dirs) - gone)[h := Updated(es, key, lfns, e)]
                     && k.files == FilesOutside(old(k.files), gone)[FileId(h, UpdatedAt(es, key, lfns)) := data]
      ensures var id := FileId(h, Find(old(k.dirs)[h], key, 0));
              ok ==> subdirs == if id.index < SLOTS && id in old(subdirs) then SubdirsWithout(old(subdirs), id)
                  else old(subdirs)
      ensures var id := FileId(h, UpdatedAt(old(k.dirs)[h], key, lfns));
              ok && Reachable(old(subdirs), h) ==>
                && (OthersStay(old(k.files), old(subdirs), k.files, subdirs, id) <==> !old(LosesFiles(h, key)))
                && Reachable(subdirs, h)
    {
      hide Disk.Valid, EntryFor, WithEntry, KeyOf, Live, NamesFit, FilesOutside, OthersStay, HasFiles, Reachable;
      FilePutSpares(k.files, subdirs, FileId(h, UpdatedAt(k.dirs[h], key, lfns)), data);
      e := Zeros(32);
      AllOutside(k.files);
      NoSubdirAtEnd(h);
      var j, hit := ScanDir(h, key);
      if hit {
        MatchKnown(h, key);
        if FileId(h, j) in subdirs && Reachable(subdirs, h) {
          DirReplacedExactly(k, subdirs, FileId(h, j), data);
          ParentStays(k, subdirs, FileId(h, j));
        }
        ok, e := ReplaceFile(h, j, key, data);
      } else if j < SLOTS {
        EndIsFree(h);
        ok, e := PutFile(h, j, key, data);
        if ok { NamesFilePut(old(k), k, subdirs, h, j, e, data); }
      } else {
        ok, e := AddAgain(h, key, lfns, data);
      }
    }

    /** The first cluster of a directory searched for a subdirectory of that name. */
    method FindSubdir(h: nat, key: Key) returns (c: nat, ghost j: nat)
      requires Settled() && h in k.dirs && key[0] != DOT
      ensures c != 0 ==> j < SLOTS && j < |k.dirs[h]| && KeyOf(k.dirs[h][j]) == key
                         && FileId(h, j) in subdirs && c == subdirs[FileId(h, j)]
      ensures c == 0 ==> forall i :: 0 <= i < SLOTS && i < |k.dirs[h]| ==>
                           !(KeyOf(k.dirs[h][i]) == key && IsDirectory(k.dirs[h][i]))
    {
      ghost var es := k.dirs[h];
      DirOnDisk(fat[..], image[..], k, h);
      var i := 0;
      while i < SLOTS
        invariant i <= SLOTS && i <= |es|
        invariant forall n :: 0 <= n < i ==> !(KeyOf(es[n]) == key && IsDirectory(es[n]))
      {
        FirstCluster(image[..], k.chains[h], es, i);
        if image[h][32 * i] == 0x00 {
          return 0, 0;
        }
        var e := EntryAt(image[h], i);
        if e[..11] == key && IsDirectory(e) {
          DirectoryKnown(h, i);
          return StartOf(e), i;
        }
        i := i + 1;
      }
      return 0, 0;
    }

    /** An entry with the directory bit that is not a dot entry is a directory's. */
    lemma DirectoryKnown(h: nat, i: nat)
      requires Settled() && h in k.dirs && i < |k.dirs[h]| && IsDirectory(k.dirs[h][i]) && KeyOf(k.dirs[h][i])[0] != DOT
      ensures FileId(h, i) in subdirs && StartOf(k.dirs[h][i]) == subdirs[FileId(h, i)] >= 2
    {
      assert Known(k, subdirs, h, i) && KeyOf(k.dirs[h][i])[0] == k.dirs[h][i][0];
      FilesAreArchives(image[..], k);
      assert SubdirFits(k, subdirs, FileId(h, i));
      ChainInRange(fat[..], k, subdirs[FileId(h, i)]);
    }

    /** find_or_create_dir: the directory at a path from the root, made if it is not there. */
    method FindOrCreateDir(parts: seq<(Key, seq<Entry>)>) returns (ok: bool, cur: nat)
      requires Settled()
      requires forall i :: 0 <= i < |parts| ==> parts[i].0[0] != 0 && parts[i].0[0] != 0xE5 && parts[i].0[0] != DOT
      requires forall i, n :: 0 <= i < |parts| && 0 <= n < |parts[i].1| ==> LongName(parts[i].1[n])
      modifies this, fat, image
      ensures !ok ==> Arrays() && Full()
      ensures ok ==> Settled() && cur in k.dirs && Reachable(subdirs, cur) && k.files == old(k.files)
      ensures ok ==> forall d :: Reachable(old(subdirs), d) ==> Reachable(subdirs, d)
    {
      hide Disk.Valid, NamesFit, Reachable, LongName;
      ok, cur := true, ROOT_CLUSTER;
      RootReachable(subdirs);
      RootInPlace();
      for i := 0 to |parts|
        invariant Settled() && cur in k.dirs && Reachable(subdirs, cur) && k.files == old(k.files)
        invariant forall d :: Reachable(old(subdirs), d) ==> Reachable(subdirs, d)
      {
        var found, j := FindSubdir(cur, parts[i].0);
        if found == 0 {
          NoSubdirsPastEnd(cur, |parts[i].1|);
          ghost var id, sub := FileId(cur, |k.dirs[cur]| + |parts[i].1|), subdirs;
          ok, found := AddDirectory(cur, parts[i].0, parts[i].1);
          if !ok { return; }
          AddedReachable(sub, id, found);
        } else {
          SubdirReached(cur, j);
        }
        cur := found;
      }
    }

    lemma RootInPlace()
      requires Settled()
      ensures ROOT_CLUSTER in k.dirs
    {
    }

    lemma SubdirReached(h: nat, j: nat)
      requires Settled() && FileId(h, j) in subdirs && Reachable(subdirs, h)
      ensures subdirs[FileId(h, j)] in k.dirs && Reachable(subdirs, subdirs[FileId(h, j)])
    {
      var id := FileId(h, j);
      assert SubdirFits(k, subdirs, id);
      var p :| Leads(subdirs, ROOT_CLUSTER, p, h);
      assert Leads(subdirs, subdirs[id], [id][1..], subdirs[id]);
      LeadsOn(subdirs, ROOT_CLUSTER, p, h, [id], subdirs[id]);
    }

    lemma NoSubdirsPastEnd(h: nat, n: nat)
      requires Settled() && h in k.dirs
      ensures FileId(h, |k.dirs[h]| + n) !in subdirs
    {
      SubdirsInRange(k, subdirs, h);
    }

    lemma NoSubdirAtEnd(h: nat)
      requires Settled() && h in k.dirs
      ensures FileId(h, |k.dirs[h]|) !in subdirs && Gone(h, |k.dirs[h]|) == {}
    {
      SubdirsInRange(k, subdirs, h);
    }

    /** The entry in slot j becomes that of a file with new data. */
    method ReplaceFile(h: nat, j: nat, key: Key, data: seq<Byte>) returns (ok: bool, ghost e: Entry)
      requires Settled() && h in k.dirs && j < SLOTS && j < |k.dirs[h]|
               && (FileId(h, j) in k.files || FileId(h, j) in subdirs)
      requires key[0] != 0 && key[0] != 0xE5 && |data| < 0x1_0000_0000
      modifies this, fat, image
      ensures !ok ==> Arrays() && Full()
      ensures ok ==> Settled() && EntryFor(e, data) && KeyOf(e) == key
      ensures ok ==> k.dirs == (old(k.dirs) - old(Gone(h, j)))[h := WithEntry(old(k.dirs)[h], j, e)]
      ensures ok ==> k.files == FilesOutside(old(k.files), old(Gone(h, j)))[FileId(h, j) := data]
      ensures ok ==> subdirs == if FileId(h, j) in old(subdirs) then SubdirsWithout(old(subdirs), FileId(h, j))
              else old(subdirs)
    {
      hide Disk.Valid, EntryFor, WithEntry, KeyOf, NamesFit, FilesOutside;
      AllOutside(k.files);
      ghost var gone := FilesOutside(k.files, Gone(h, j));
      DropEntry(h, j);
      ok, e := PutFile(h, j, key, data);
      MapReplaced(gone, FileId(h, j), data);
      if ok {
        if FileId(h, j) in subdirs {
          NamesDirReplaced(old(k), k, subdirs, h, j, e, data);
          subdirs := SubdirsWithout(subdirs, FileId(h, j));
        } else {
          NamesFilePut(old(k), k, subdirs, h, j, e, data);
        }
      }
    }

    /** The data of a file and its short entry in slot j of the first cluster. */
    method PutFile(h: nat, j: nat, key: Key, data: seq<Byte>) returns (ok: bool, ghost e: Entry)
      requires Valid() && h in k.dirs && j < SLOTS && j <= |k.dirs[h]| && FileId(h, j) !in k.files
      requires key[0] != 0 && key[0] != 0xE5 && |data| < 0x1_0000_0000
      modifies `k, `nextFree, fat, image
      ensures !ok ==> Arrays() && Full()
      ensures ok ==> Valid() && EntryFor(e, data) && KeyOf(e) == key
      ensures ok ==> k.dirs == old(k.dirs)[h := WithEntry(old(k.dirs)[h], j, e)]
                     && k.files == old(k.files)[FileId(h, j) := data]
    {
      hide Disk.Valid, MakeEntry, Referable, WithEntry;
      e := Zeros(32);
      var start, size;
      ok, start, size := WriteFileData(data);
      if !ok { return; }
      EntryRoundTrip(key, ATTR_ARCHIVE, start, size);
      var entry := MakeEntry(key, ATTR_ARCHIVE, start, size);
      e := entry;
      PutEntry(h, j, entry, data);
    }

    /** The first cluster is full: the data just written is written once more by add_file, and the
        first copy keeps its clusters without any entry. */
    method AddAgain(h: nat, key: Key, lfns: seq<Entry>, data: seq<Byte>) returns (ok: bool, ghost e: Entry)
      requires Settled() && h in k.dirs && key[0] != 0 && key[0] != 0xE5 && |data| < 0x1_0000_0000
      requires forall i :: 0 <= i < |lfns| ==> LongName(lfns[i])
      modifies `k, `nextFree, fat, image
      ensures !ok ==> Arrays() && Full()
      ensures ok ==> Settled() && EntryFor(e, data) && KeyOf(e) == key
                     && k.dirs == old(k.dirs)[h := old(k.dirs)[h] + (lfns + [e])]
      ensures ok ==> k.files == old(k.files)[FileId(h, |old(k.dirs)[h]| + |lfns|) := data]
    {
      hide Disk.Valid, EntryFor, Referable, Live, KeyOf, Zeros;
      e := Zeros(32);
      var start, size;
      ok, start, size := WriteFileData(data);
      if ok {
        NamesSame(old(k), k, subdirs);
        ok, e := AddFile(h, key, lfns, data);
      }
    }
  }

  // ---------------------------------------------------------------- two runs of the builder

  /** A name of one letter and a number. */
  function NameOf(letter: Byte, n: Byte): Key { [letter, n, 32, 32, 32, 32, 32, 32, 32, 32, 32] }

  /** A long-name entry. */
  function LongEntry(): (e: Entry)
    ensures LongName(e)
  {
    [65, 0, 0, 0, 0, 0, 0, 0, 0, 0, 0, 15] + Zeros(20)
  }

  /** A run in which a file is lost below a directory that has none itself: directory D in the root holds
      only directory E, E holds a file, and then a file named D is updated. */
  method LostBelow() returns (ok: bool, d: Disk, ghost before: Subdirs, ghost x: FileId)
    ensures !ok ==> d.Arrays() && d.Full()
    ensures ok ==> d.Settled() && x in d.k.files && Reachable(before, x.dir) && !Reachable(d.subdirs, x.dir)
  {
    hide Disk.Valid, NamesFit, LongName, MakeEntry, DotEntries, Reachable, KeyOf, AttrOf, Find, OthersStay, EntryFor;
    d := new Disk();
    before, x := map[], FileId(0, 0);
    RootReachable(d.subdirs);
    var a, b;
    var lfns := [LongEntry()];
    ok, a := d.AddDirectory(ROOT_CLUSTER, NameOf(68, 32), lfns);
    if !ok { return; }
    ghost var e := FileId(ROOT_CLUSTER, 1);
    AddedReachable(map[], e, a);
    ok, b := d.AddDirectory(a, NameOf(69, 32), lfns);
    if !ok { return; }
    ghost var f := FileId(a, 3);
    AddedReachable(map[e := a], f, b);
    ghost var entry;
    ok, entry := d.AddFile(b, NameOf(70, 32), lfns, []);
    if !ok { return; }
    before, x := d.subdirs, FileId(b, 3);
    assert before == map[e := a][f := b];
    assert d.k.dirs[ROOT_CLUSTER] == [lfns[0], MakeEntry(NameOf(68, 32), ATTR_DIRECTORY, a, 0)];
    SecondIsFound(d.k.dirs[ROOT_CLUSTER], lfns[0], NameOf(68, 32), a);
    BelowIsLost(d.k, before, e, [f], b);
    ok, entry := d.UpdateFile(ROOT_CLUSTER, NameOf(68, 32), lfns, []);
  }

  lemma SecondIsFound(es: seq<Entry>, l: Entry, key: Key, start: nat)
    requires LongName(l) && start < ENTRIES && es == [l, MakeEntry(key, ATTR_DIRECTORY, start, 0)]
    ensures Find(es, key, 0) == 1
  {
    EntryRoundTrip(key, ATTR_DIRECTORY, start, 0);
    FindAt(es, key, 1);
  }

  /** The first n names with letter A. */
  ghost predicate Numbered(es: seq<Entry>, n: nat)
    requires n <= 128
  {
    |es| >= n && forall j :: 0 <= j < n ==> KeyOf(es[j]) == NameOf(65, j)
  }

  /** A run in which an update is hidden: 128 files fill the first cluster of the root, the next one goes
      to the second, and updating that one adds a second entry behind the first. */
  method HiddenUpdate() returns (ok: bool, d: Disk)
    ensures !ok ==> d.Arrays() && d.Full()
    ensures ok ==> d.Settled() && ROOT_CLUSTER in d.k.dirs && Find(d.k.dirs[ROOT_CLUSTER], NameOf(66, 32), 0) == 129
    ensures ok ==> FileId(ROOT_CLUSTER, 129) in d.k.files && d.k.files[FileId(ROOT_CLUSTER, 129)] == [1]
    ensures ok ==> FileId(ROOT_CLUSTER, 131) in d.k.files && d.k.files[FileId(ROOT_CLUSTER, 131)] == [2]
  {
    hide Disk.Valid, NamesFit, LongName, KeyOf, AttrOf, Find, OthersStay, EntryFor, Reachable, HasFiles, Numbered,
        Updated, UpdatedAt;
    d := new Disk();
    ghost var e: Entry, e': Entry := Zeros(32), Zeros(32);
    ok := FillRoot(d);
    if !ok { return; }
    AllOutside(d.k.files);
    var name, lfns := NameOf(66, 32), [LongEntry()];
    ghost var es := d.k.dirs[ROOT_CLUSTER];
    ok, e := d.UpdateFile(ROOT_CLUSTER, name, lfns, [1]);
    if !ok { return; }
    AddedBehind(es, name, lfns[0], e);
    AllOutside(d.k.files);
    ok, e' := d.UpdateFile(ROOT_CLUSTER, name, lfns, [2]);
    if !ok { return; }
    HiddenBehind(es, name, lfns[0], e, [1], e');
  }

  /** Update 128 files of different names. */
  method FillRoot(d: Disk) returns (ok: bool)
    requires d.Settled() && d.k.dirs == map[ROOT_CLUSTER := []] && d.k.files == map[] && d.subdirs == map[]
    modifies d, d.fat, d.image
    ensures !ok ==> d.Arrays() && d.Full()
    ensures ok ==> d.Settled() && d.subdirs == map[] && ROOT_CLUSTER in d.k.dirs
    ensures ok ==> |d.k.dirs[ROOT_CLUSTER]| == 128 && Numbered(d.k.dirs[ROOT_CLUSTER], 128)
  {
    hide Disk.Valid, NamesFit, LongName, KeyOf, AttrOf, Find, OthersStay, EntryFor, Reachable, HasFiles, Numbered,
        FilesOutside, Updated, UpdatedAt;
    ok := true;
    NumberedNone([]);
    for i := 0 to 128
      invariant d.Settled() && d.subdirs == map[] && ROOT_CLUSTER in d.k.dirs
      invariant |d.k.dirs[ROOT_CLUSTER]| == i && Numbered(d.k.dirs[ROOT_CLUSTER], i)
    {
      ghost var es := d.k.dirs[ROOT_CLUSTER];
      ghost var e;
      ok, e := d.UpdateFile(ROOT_CLUSTER, NameOf(65, i), [LongEntry()], []);
      if !ok { return; }
      NumberedMore(es, i, [LongEntry()], e);
    }
  }

  lemma NumberedNone(es: seq<Entry>)
    ensures Numbered(es, 0)
  {
  }

  lemma NumberedMore(es: seq<Entry>, i: nat, lfns: seq<Entry>, e: Entry)
    requires i < 128 && |es| == i && Numbered(es, i) && KeyOf(e) == NameOf(65, i)
    ensures var es' := Updated(es, NameOf(65, i), lfns, e); |es'| == i + 1 && Numbered(es', i + 1)
  {
    forall j | 0 <= j < i ensures !Matches(es[j], NameOf(65, i)) { assert KeyOf(es[j])[1] == j; }
    FindNone(es, NameOf(65, i), 0);
  }

  /** A name that is not in a full first cluster is added behind it. */
  lemma AddedBehind(es: seq<Entry>, name: Key, l: Entry, e: Entry)
    requires |es| == 128 && Numbered(es, 128) && name == NameOf(66, 32) && LongName(l)
    ensures Find(es, name, 0) == 128 && Updated(es, name, [l], e) == es + [l, e] && UpdatedAt(es, name, [l]) == 129
  {
    forall j | 0 <= j < 128 ensures !Matches(es[j], name) { assert KeyOf(es[j])[0] == 65; }
    FindNone(es, name, 0);
  }

  lemma HiddenBehind(es: seq<Entry>, name: Key, l: Entry, e: Entry, data: seq<Byte>, e': Entry)
    requires |es| == 128 && Numbered(es, 128) && name == NameOf(66, 32) && LongName(l)
    requires KeyOf(e) == name && EntryFor(e, data)
    ensures var es' := es + [l, e];
            && Find(es', name, 0) == 129 && UpdatedAt(es', name, [l]) == 131
            && Find(Updated(es', name, [l], e'), name, 0) == 129
  {
    forall j | 0 <= j < 128 ensures !Matches(es[j], name) { assert KeyOf(es[j])[0] == 65; }
    var es' := es + [l, e];
    FindAt(es', name, 129);
    FindAt(es' + [l, e'], name, 129);
    assert Updated(es', name, [l], e') == es' + [l, e'];
  }
}
