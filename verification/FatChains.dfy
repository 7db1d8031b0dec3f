/** The file allocation table as a set of cluster chains (scripts/make_disk.py; Microsoft FAT32
    File System Specification, section on the FAT data structure). */
module FatChains {

  const TOTAL_CLUSTERS: nat := 130556
  const ENTRIES: nat := TOTAL_CLUSTERS + 2
  const ROOT_CLUSTER: nat := 2
  /** End of chain. */
  const EOC: nat := 0x0FFFFFFF

  type Fat = f: seq<nat> | |f| == ENTRIES witness seq(ENTRIES, _ => 0)
  type Chain = seq<nat>

  /** A cluster's place: the chain it belongs to, named by its first cluster, and the position there. */
  datatype Place = Place(head: nat, index: nat)

  function NextIn(s: Chain, i: nat): nat { if i + 1 < |s| then s[i + 1] else EOC }

  ghost predicate CellFits(fat: Fat, chains: map<nat, Chain>, owner: map<nat, Place>, h: nat, i: nat)
    requires h in chains && i < |chains[h]|
  {
    var c := chains[h][i];
    2 <= c < ENTRIES && fat[c] == NextIn(chains[h], i) && c in owner && owner[c] == Place(h, i)
  }

  ghost predicate Owned(chains: map<nat, Chain>, owner: map<nat, Place>, c: nat)
    requires c in owner
  {
    var p := owner[c];
    p.head in chains && p.index < |chains[p.head]| && chains[p.head][p.index] == c
  }

  /** The table is a set of chains that end in EOC; no cluster is in two chains or twice in one,
      and every cluster in use is in a chain. */
  ghost predicate FatFits(fat: Fat, chains: map<nat, Chain>, owner: map<nat, Place>) {
    HeadsFit(chains) && CellsFit(fat, chains, owner) && PlacesFit(chains, owner) && UsedFits(fat, owner)
  }

  ghost predicate HeadsFit(chains: map<nat, Chain>) {
    forall h :: h in chains ==> |chains[h]| > 0 && chains[h][0] == h
  }

  ghost predicate CellsFit(fat: Fat, chains: map<nat, Chain>, owner: map<nat, Place>) {
    forall h, i :: h in chains && 0 <= i < |chains[h]| ==> CellFits(fat, chains, owner, h, i)
  }

  ghost predicate PlacesFit(chains: map<nat, Chain>, owner: map<nat, Place>) {
    forall c :: c in owner ==> Owned(chains, owner, c)
  }

  ghost predicate UsedFits(fat: Fat, owner: map<nat, Place>) {
    forall c :: 2 <= c < ENTRIES && fat[c] != 0 ==> c in owner
  }

  ghost predicate Disjoint(chains: map<nat, Chain>) {
    forall h, i, g, j ::
      h in chains && g in chains && 0 <= i < |chains[h]| && 0 <= j < |chains[g]| && chains[h][i] == chains[g][j] ==>
        h == g && i == j
  }

  lemma ChainsDisjoint(fat: Fat, chains: map<nat, Chain>, owner: map<nat, Place>)
    requires FatFits(fat, chains, owner)
    ensures Disjoint(chains)
  {
    forall h, i, g, j | h in chains && g in chains && 0 <= i < |chains[h]| && 0 <= j < |chains[g]|
        && chains[h][i] == chains[g][j]
      ensures h == g && i == j
    {
      assert CellFits(fat, chains, owner, h, i) && CellFits(fat, chains, owner, g, j);
    }
  }

  lemma OwnedIsUsed(fat: Fat, chains: map<nat, Chain>, owner: map<nat, Place>, c: nat)
    requires FatFits(fat, chains, owner) && c in owner
    ensures 2 <= c < ENTRIES && fat[c] != 0
  {
    var p := owner[c];
    assert Owned(chains, owner, c);
    assert CellFits(fat, chains, owner, p.head, p.index);
    if p.index + 1 < |chains[p.head]| { assert CellFits(fat, chains, owner, p.head, p.index + 1); }
  }

  lemma HeadIsOwned(fat: Fat, chains: map<nat, Chain>, owner: map<nat, Place>, h: nat)
    requires FatFits(fat, chains, owner) && h in chains
    ensures h in owner && owner[h] == Place(h, 0) && h < ENTRIES && fat[h] != 0
  {
    assert CellFits(fat, chains, owner, h, 0);
    OwnedIsUsed(fat, chains, owner, h);
  }

  // ---------------------------------------------------------------- a new chain

  ghost predicate NewClusters(fat: Fat, s: Chain) {
    |s| > 0 && (forall i :: 0 <= i < |s| ==> 2 <= s[i] < ENTRIES && fat[s[i]] == 0)
        && (forall i, j :: 0 <= i < j < |s| ==> s[i] != s[j])
  }

  ghost predicate Chained(fat: Fat, s: Chain, fat': Fat) {
    && (forall c :: 0 <= c < ENTRIES && c !in s ==> fat'[c] == fat[c])
    && (forall i :: 0 <= i < |s| ==> s[i] < ENTRIES && fat'[s[i]] == NextIn(s, i))
  }

  ghost function OwnerWith(owner: map<nat, Place>, s: Chain): map<nat, Place>
    requires s != []
  {
    map c | c in owner.Keys + (set x | x in s) :: if c in s then Place(s[0], IndexIn(s, c)) else owner[c]
  }

  function IndexIn(s: Chain, c: nat): (i: nat)
    requires c in s
    ensures i < |s| && s[i] == c
  {
    if s[0] == c then 0 else 1 + IndexIn(s[1..], c)
  }

  lemma AddChain(fat: Fat, chains: map<nat, Chain>, owner: map<nat, Place>, s: Chain, fat': Fat)
    requires FatFits(fat, chains, owner) && NewClusters(fat, s) && Chained(fat, s, fat')
    ensures FatFits(fat', chains[s[0] := s], OwnerWith(owner, s)) && s[0] !in chains
  {
    hide Chained, CellsFit, PlacesFit, UsedFits, OwnerWith;
    NewIsUnused(fat, chains, owner, s, 0);
    AddCells(fat, chains, owner, s, fat');
    AddPlaces(fat, chains, owner, s);
    UsedIsOwned(fat, chains, owner, s, fat');
  }

  lemma AddCells(fat: Fat, chains: map<nat, Chain>, owner: map<nat, Place>, s: Chain, fat': Fat)
    requires FatFits(fat, chains, owner) && NewClusters(fat, s) && Chained(fat, s, fat')
    ensures CellsFit(fat', chains[s[0] := s], OwnerWith(owner, s))
  {
    var chains', owner' := chains[s[0] := s], OwnerWith(owner, s);
    forall h, i | h in chains' && 0 <= i < |chains'[h]| ensures CellFits(fat', chains', owner', h, i) {
      if h == s[0] {
        NewCell(fat, chains, owner, s, fat', i);
      } else {
        OldCell(fat, chains, owner, s, fat', h, i);
      }
    }
  }

  lemma AddPlaces(fat: Fat, chains: map<nat, Chain>, owner: map<nat, Place>, s: Chain)
    requires FatFits(fat, chains, owner) && s != [] && s[0] !in chains
    ensures PlacesFit(chains[s[0] := s], OwnerWith(owner, s))
  {
    forall c | c in OwnerWith(owner, s) ensures Owned(chains[s[0] := s], OwnerWith(owner, s), c) {
      if c in s { assert s[IndexIn(s, c)] == c; } else { assert Owned(chains, owner, c); }
    }
  }

  lemma NewIsUnused(fat: Fat, chains: map<nat, Chain>, owner: map<nat, Place>, s: Chain, i: nat)
    requires FatFits(fat, chains, owner) && NewClusters(fat, s) && i < |s|
    ensures s[i] !in owner && s[i] !in chains
  {
    if s[i] in owner { OwnedIsUsed(fat, chains, owner, s[i]); }
    if s[i] in chains { HeadIsOwned(fat, chains, owner, s[i]); }
  }

  lemma NewCell(fat: Fat, chains: map<nat, Chain>, owner: map<nat, Place>, s: Chain, fat': Fat, i: nat)
    requires NewClusters(fat, s) && Chained(fat, s, fat') && i < |s|
    ensures CellFits(fat', chains[s[0] := s], OwnerWith(owner, s), s[0], i)
  {
    assert s[i] in s && s[IndexIn(s, s[i])] == s[i];
  }

  lemma UsedIsOwned(fat: Fat, chains: map<nat, Chain>, owner: map<nat, Place>, s: Chain, fat': Fat)
    requires FatFits(fat, chains, owner) && s != [] && Chained(fat, s, fat')
    ensures UsedFits(fat', OwnerWith(owner, s))
  {
    forall c | 2 <= c < ENTRIES && fat'[c] != 0 ensures c in OwnerWith(owner, s) {
      if c !in s { assert fat[c] != 0; }
    }
  }

  lemma OldCell(fat: Fat, chains: map<nat, Chain>, owner: map<nat, Place>, s: Chain, fat': Fat, h: nat, i: nat)
    requires FatFits(fat, chains, owner) && NewClusters(fat, s) && Chained(fat, s, fat') && h in chains && h != s[0]
             && i < |chains[h]|
    ensures CellFits(fat', chains[s[0] := s], OwnerWith(owner, s), h, i)
  {
    var c := chains[h][i];
    assert CellFits(fat, chains, owner, h, i);
    OwnedIsUsed(fat, chains, owner, c);
    assert c !in s;
  }

  // ---------------------------------------------------------------- freeing a chain

  ghost predicate Freed(fat: Fat, s: Chain, fat': Fat) {
    forall c :: 0 <= c < ENTRIES ==> fat'[c] == if c in s then 0 else fat[c]
  }

  lemma NothingFreed(fat: Fat, s: Chain)
    requires s == []
    ensures Freed(fat, s, fat)
  {
  }

  lemma FreedMore(fat: Fat, s: Chain, i: nat, fat': Fat)
    requires i < |s| && s[i] < ENTRIES && s[i] !in s[..i] && Freed(fat, s[..i], fat')
    ensures fat'[s[i]] == fat[s[i]] && Freed(fat, s[..i + 1], fat'[s[i] := 0])
  {
    assert s[..i + 1] == s[..i] + [s[i]];
  }

  ghost function OwnerWithout(owner: map<nat, Place>, h: nat): map<nat, Place> {
    map c | c in owner && owner[c].head != h :: owner[c]
  }

  lemma RemoveChain(fat: Fat, chains: map<nat, Chain>, owner: map<nat, Place>, h: nat, fat': Fat)
    requires FatFits(fat, chains, owner) && h in chains && Freed(fat, chains[h], fat')
    ensures FatFits(fat', chains - {h}, OwnerWithout(owner, h))
  {
    var chains', owner' := chains - {h}, OwnerWithout(owner, h);
    forall g, i | g in chains' && 0 <= i < |chains'[g]| ensures CellFits(fat', chains', owner', g, i) {
      assert CellFits(fat, chains, owner, g, i);
      NotInOther(fat, chains, owner, g, i, h);
    }
    forall c | c in owner' ensures Owned(chains', owner', c) { assert Owned(chains, owner, c); }
    forall c | 2 <= c < ENTRIES && fat'[c] != 0 ensures c in owner' {
      assert Owned(chains, owner, c);
    }
  }

  lemma NotInOther(fat: Fat, chains: map<nat, Chain>, owner: map<nat, Place>, g: nat, i: nat, h: nat)
    requires FatFits(fat, chains, owner) && g in chains && h in chains && g != h && i < |chains[g]|
    ensures chains[g][i] !in chains[h]
  {
    var c := chains[g][i];
    assert CellFits(fat, chains, owner, g, i);
    forall j | 0 <= j < |chains[h]| ensures chains[h][j] != c { assert CellFits(fat, chains, owner, h, j); }
  }

  // ---------------------------------------------------------------- lengthening a chain

  lemma GrowChain(fat: Fat, chains: map<nat, Chain>, owner: map<nat, Place>, h: nat, c: nat, fat': Fat)
    requires FatFits(fat, chains, owner) && h in chains && 2 <= c < ENTRIES && fat[c] == 0
    requires forall k :: 0 <= k < ENTRIES ==> fat'[k] == if k == c then EOC else if k == chains[h][|chains[h]| - 1]
             then c else fat[k]
    ensures FatFits(fat', chains[h := chains[h] + [c]], owner[c := Place(h, |chains[h]|)]) && c !in owner
  {
    var s := chains[h];
    var chains', owner' := chains[h := s + [c]], owner[c := Place(h, |s|)];
    if c in owner { OwnedIsUsed(fat, chains, owner, c); }
    assert CellFits(fat, chains, owner, h, |s| - 1);
    forall g, i | g in chains' && 0 <= i < |chains'[g]| ensures CellFits(fat', chains', owner', g, i) {
      if g != h || i < |s| { assert CellFits(fat, chains, owner, g, i); }
    }
    forall k | k in owner' ensures Owned(chains', owner', k) {
      if k != c { assert Owned(chains, owner, k); }
    }
  }
}
