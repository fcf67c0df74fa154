// The four-level user namespace hierarchy of the nested idmapped-mount test.
//
//   level 1: 0 -> 1000000, 1000000000 ids        (relative to the initial namespace)
//   level 2: 0 -> 1000000, 100000000 ids         (relative to level 1)
//   level 3: 0 -> 1000000, 999 ids; 1000 -> 1000, 1 id; 1001 -> 1001001, 10000000 ids
//                                                 (relative to level 2; 999 stays unmapped)
//   level 4: no map at all
//
// Each level's namespace is also attached to a mount of the same directory,
// whose files are owned by ids 0 .. 10000.  The lemmas derive the ownership
// every level sees through every mount from the maps alone.

module NestedUserns {
  import opened IdMaps
  import opened Chains
  import opened Oracle

  /** Files FILE1_0 .. FILE1_10000 are owned by their own number. */
  const IdFileRange: nat := 10000

  function Level1Map(): IdMap
  {
    AddMapEntry([], 1000000, 0, 1000000000)
  }

  function Level2Map(): IdMap
  {
    AddMapEntry([], 1000000, 0, 100000000)
  }

  function Level3Map(): IdMap
  {
    AddMapEntry(AddMapEntry(AddMapEntry([], 1000000, 0, 999), 1000, 1000, 1), 1001001, 1001, 10000000)
  }

  /** The namespace of level k (0 is the initial namespace). */
  function Hier(k: nat): (c: Chain)
    requires k <= 4
    ensures |c| == k
  {
    [Level1Map(), Level2Map(), Level3Map(), []][..k]
  }

  lemma HierWellFormed(k: nat)
    requires k <= 4
    ensures ChainWellFormed(Hier(k))
  {
    var l3 := Level3Map();
    assert l3 == [Extent(0, 1000000, 999), Extent(1000, 1000, 1), Extent(1001, 1001001, 10000000)];
    assert WellFormed(l3);
  }

  lemma Level3Lookups(x: nat)
    ensures Forward(Level3Map(), x) ==
              (if x < 999 || 1001 <= x < 10001001 then Mapped(x + 1000000)
               else if x == 1000 then Mapped(1000) else Unmapped)
    ensures Inverse(Level3Map(), x) ==
              (if 1000000 <= x < 1000999 || 1001001 <= x < 11001001 then Mapped(x - 1000000)
               else if x == 1000 then Mapped(1000) else Unmapped)
  {
    var l3 := Level3Map();
    assert l3 == [Extent(0, 1000000, 999), Extent(1000, 1000, 1), Extent(1001, 1001001, 10000000)];
    assert l3[1..] == [Extent(1000, 1000, 1), Extent(1001, 1001001, 10000000)];
    assert l3[1..][1..] == [Extent(1001, 1001001, 10000000)];
    assert l3[1..][1..][1..] == [];
  }

  /** Ids of each level as kernel ids. */
  lemma ToInitClosedForms(x: nat)
    ensures ToInit(Hier(1), x) == (if x < 1000000000 then Mapped(x + 1000000) else Unmapped)
    ensures ToInit(Hier(2), x) == (if x < 100000000 then Mapped(x + 2000000) else Unmapped)
    ensures ToInit(Hier(3), x) ==
              (if x < 999 || 1001 <= x < 10001001 then Mapped(x + 3000000)
               else if x == 1000 then Mapped(2001000) else Unmapped)
    ensures ToInit(Hier(4), x) == Unmapped
  {
    assert Hier(1)[..0] == Hier(0);
    assert Hier(2)[..1] == Hier(1);
    assert Hier(3)[..2] == Hier(2);
    assert Hier(4) == Hier(3) + [[]];
    Level3Lookups(x);
    EmptyLevelHidesAll(Hier(3), x, x);
  }

  /** Kernel ids as ids of each level. */
  lemma FromInitClosedForms(v: nat)
    ensures FromInit(Hier(1), v) == (if 1000000 <= v < 1001000000 then Mapped(v - 1000000) else Unmapped)
    ensures FromInit(Hier(2), v) == (if 2000000 <= v < 102000000 then Mapped(v - 2000000) else Unmapped)
    ensures FromInit(Hier(3), v) ==
              (if 3000000 <= v < 3000999 || 3001001 <= v < 13001001 then Mapped(v - 3000000)
               else if v == 2001000 then Mapped(1000) else Unmapped)
    ensures FromInit(Hier(4), v) == Unmapped
  {
    assert Hier(1)[..0] == Hier(0);
    assert Hier(2)[..1] == Hier(1);
    assert Hier(3)[..2] == Hier(2);
    assert Hier(4) == Hier(3) + [[]];
    if 2000000 <= v < 102000000 {
      Level3Lookups(v - 2000000);
    }
    EmptyLevelHidesAll(Hier(3), v, v);
  }

  /** The owner of FILE1_<id> as a caller at `caller` sees it through the mount of level `mount`. */
  function Shown(mount: nat, caller: nat, h: nat, overflow: nat): nat
    requires mount <= 4 && caller <= 4
  {
    Display(View(Hier(mount), Hier(caller), h), overflow)
  }

  /** Seen from the initial namespace: level 1 adds 1000000, level 2 2000000, level 3 3000000 except for the hole. */
  lemma ShownFromInit(id: nat, ov: nat)
    requires id <= IdFileRange + 1
    ensures Shown(1, 0, id, ov) == id + 1000000
    ensures Shown(2, 0, id, ov) == id + 2000000
    ensures Shown(3, 0, id, ov) == if id == 999 then ov else if id == 1000 then id + 2000000 else id + 3000000
    ensures Shown(4, 0, id, ov) == ov
  {
    ToInitClosedForms(id);
  }

  /** Seen from level 1. */
  lemma ShownFromLevel1(id: nat, ov: nat)
    requires id <= IdFileRange + 1
    ensures Shown(1, 1, id, ov) == id
    ensures Shown(2, 1, id, ov) == id + 1000000
    ensures Shown(3, 1, id, ov) == if id == 999 then ov else if id == 1000 then id + 1000000 else id + 2000000
    ensures Shown(4, 1, id, ov) == ov
  {
    ToInitClosedForms(id);
    FromInitClosedForms(id + 1000000);
    FromInitClosedForms(id + 2000000);
    FromInitClosedForms(id + 3000000);
    FromInitClosedForms(2001000);
  }

  /** Seen from level 2: level 1's files are out of reach. */
  lemma ShownFromLevel2(id: nat, ov: nat)
    requires id <= IdFileRange + 1
    ensures Shown(1, 2, id, ov) == ov
    ensures Shown(2, 2, id, ov) == id
    ensures Shown(3, 2, id, ov) == if id == 999 then ov else if id == 1000 then id else id + 1000000
    ensures Shown(4, 2, id, ov) == ov
  {
    ToInitClosedForms(id);
    FromInitClosedForms(id + 1000000);
    FromInitClosedForms(id + 2000000);
    FromInitClosedForms(id + 3000000);
    FromInitClosedForms(2001000);
  }

  /** Seen from level 3: through level 2's mount only id 1000 is visible. */
  lemma ShownFromLevel3(id: nat, ov: nat)
    requires id <= IdFileRange + 1
    ensures Shown(1, 3, id, ov) == ov
    ensures Shown(2, 3, id, ov) == if id == 1000 then id else ov
    ensures Shown(3, 3, id, ov) == if id == 999 then ov else id
    ensures Shown(4, 3, id, ov) == ov
  {
    ToInitClosedForms(id);
    FromInitClosedForms(id + 1000000);
    FromInitClosedForms(id + 2000000);
    FromInitClosedForms(id + 3000000);
    FromInitClosedForms(2001000);
  }

  /** Seen from level 4, which has no map, everything is the overflow id. */
  lemma ShownFromLevel4(mount: nat, id: nat, ov: nat)
    requires mount <= 4
    ensures Shown(mount, 4, id, ov) == ov
  {
    FromInitClosedForms(id);
    match ToInit(Hier(mount), id)
    case Unmapped =>
    case Mapped(v) => FromInitClosedForms(v);
  }
}
