// The chown sweeps of the nested idmapped-mount test.  From inside each level
// of the hierarchy the test walks FILE1_0 .. FILE1_10000, changes the owner of
// each file from id to id + 1 through that level's mount, checks what every
// mount shows, and changes it back.  Each method below is one such walk over
// a Directory; it reports whether every check held, and proves that they all
// do and that the walk leaves the directory as it found it.

module NestedChown {
  import opened IdMaps
  import opened Chains
  import opened Oracle
  import opened NestedUserns
  import opened Filesystem

  function DigitChar(d: nat): char
    requires d < 10
  {
    (48 + d) as char
  }

  function Digits(n: nat): string
  {
    if n < 10 then [DigitChar(n)] else Digits(n / 10) + [DigitChar(n % 10)]
  }

  /** FILE1 "_%u" */
  function File1(id: nat): Name
  {
    "file1_" + Digits(id)
  }

  /** The directory as the test prepares it: FILE1_<id> owned by id:id for every id in range. */
  ghost predicate Prepared(entries: map<Name, Inode>)
  {
    forall id: nat :: id <= IdFileRange ==>
      File1(id) in entries && entries[File1(id)].uid == id && entries[File1(id)].gid == id
  }

  /** Root of a namespace level, with the capabilities it holds there. */
  function LevelRoot(): Cred
  {
    Cred(0, 0, {}, {CapChown, CapFowner, CapFsetid}, {})
  }

  /** Store closed forms: a level-k caller writing through the level-k mount stores what it wrote. */
  lemma StoreSameLevel(k: nat, v: nat)
    requires 1 <= k <= 3 && v <= IdFileRange + 1
    ensures Store(Hier(k), Hier(k), v) == (if k == 3 && v == 999 then Unmapped else Mapped(v))
  {
    if k == 1 {
      StoreLevel1(v);
    } else if k == 2 {
      StoreLevel2(v);
    } else {
      StoreLevel3(v);
    }
  }

  lemma StoreLevel1(v: nat)
    requires v <= IdFileRange + 1
    ensures Store(Hier(1), Hier(1), v) == Mapped(v)
  {
    ToInitClosedForms(v);
    FromInitClosedForms(v + 1000000);
  }

  lemma StoreLevel2(v: nat)
    requires v <= IdFileRange + 1
    ensures Store(Hier(2), Hier(2), v) == Mapped(v)
  {
    ToInitClosedForms(v);
    FromInitClosedForms(v + 2000000);
  }

  lemma StoreLevel3(v: nat)
    requires v <= IdFileRange + 1
    ensures Store(Hier(3), Hier(3), v) == (if v == 999 then Unmapped else Mapped(v))
  {
    ToInitClosedForms(v);
    if v == 1000 {
      FromInitClosedForms(2001000);
    } else if v != 999 {
      FromInitClosedForms(v + 3000000);
    }
  }

  /** The level-k root may chown a file it can see to an id it can name, through its own mount. */
  lemma ChownSameLevel(k: nat, inode: Inode, v: nat)
    requires 1 <= k <= 3
    requires inode.uid <= IdFileRange + 1 && inode.gid == inode.uid && v <= IdFileRange + 1
    ensures Oracle.Chown(Hier(k), Hier(k), LevelRoot(), inode, v, v) ==
              if k == 3 && (v == 999 || inode.uid == 999) then
                Fail(if v == 999 then EINVAL else EPERM)
              else Ok(inode.(uid := v, gid := v))
  {
    var h, root := Hier(k), LevelRoot();
    StoreSameLevel(k, v);
    StoreSameLevel(k, inode.uid);
    ToInitClosedForms(v);
    assert View(h, h, inode.uid) == Store(h, h, inode.uid);
    if k == 3 && v == 999 {
      assert ToInit(h, v).Unmapped?;
    } else if k == 3 && inode.uid == 999 {
      ToInitClosedForms(inode.uid);
      ToInitClosedForms(0);
      assert !OwnedByCaller(h, h, root, inode.uid);
      assert !CapableOver(h, h, root, inode, CapChown);
      assert !ChownOk(h, h, root, inode, v);
    } else {
      assert CapableOver(h, h, root, inode, CapChown);
    }
  }

  /** Changing an entry and changing it back leaves the map as it was. */
  lemma UpdateRevert(m: map<Name, Inode>, k: Name, v: Inode)
    requires k in m
    ensures m[k := v][k := m[k]] == m
  {
  }

  /** The walk of level 1 (root of level 1, through the level-1 mount). */
  method SweepLevel1(d: Directory, ov: nat) returns (ok: bool)
    requires Prepared(d.entries)
    modifies d
    ensures ok
    ensures d.entries == old(d.entries) && d.inode == old(d.inode)
  {
    ok := true;
    var id: nat := 0;
    while id <= IdFileRange
      invariant d.entries == old(d.entries) && d.inode == old(d.inode)
      invariant ok
    {
      var file := File1(id);
      var before := d.entries[file];
      var idNew := id + 1;
      ChownSameLevel(1, before, idNew);
      var r := d.Chown(file, Hier(1), Hier(1), LevelRoot(), idNew, idNew);
      ShownFromLevel1(idNew, ov);
      ok := ok && r.Ok? &&
            d.Stat(file, Hier(1), Hier(1), ov) == StatIds(idNew, idNew) &&
            d.Stat(file, Hier(2), Hier(1), ov) == (StatIds(idNew + 1000000, idNew + 1000000)) &&
            d.Stat(file, Hier(3), Hier(1), ov) ==
              (var v := if idNew == 999 then ov else if idNew == 1000 then idNew + 1000000 else idNew + 2000000; StatIds(v, v)) &&
            d.Stat(file, Hier(4), Hier(1), ov) == StatIds(ov, ov);
      var after := before.(uid := idNew, gid := idNew);
      assert d.entries == old(d.entries)[file := after];
      ChownSameLevel(1, after, id);
      r := d.Chown(file, Hier(1), Hier(1), LevelRoot(), id, id);
      ok := ok && r.Ok?;
      assert after.(uid := id, gid := id) == before;
      assert d.entries == old(d.entries)[file := after][file := before];
      UpdateRevert(old(d.entries), file, after);
      id := id + 1;
    }
  }

  /** The walk of level 2 (root of level 2, through the level-2 mount). */
  method SweepLevel2(d: Directory, ov: nat) returns (ok: bool)
    requires Prepared(d.entries)
    modifies d
    ensures ok
    ensures d.entries == old(d.entries) && d.inode == old(d.inode)
  {
    ok := true;
    var id: nat := 0;
    while id <= IdFileRange
      invariant d.entries == old(d.entries) && d.inode == old(d.inode)
      invariant ok
    {
      var file := File1(id);
      var before := d.entries[file];
      var idNew := id + 1;
      assert before.uid == id && before.gid == id;
      ChownSameLevel(2, before, idNew);
      var r := d.Chown(file, Hier(2), Hier(2), LevelRoot(), idNew, idNew);
      assert file in d.entries;
      ShownFromLevel2(idNew, ov);
      ok := ok && r.Ok? &&
            d.Stat(file, Hier(1), Hier(2), ov) == StatIds(ov, ov) &&
            d.Stat(file, Hier(2), Hier(2), ov) == StatIds(idNew, idNew) &&
            d.Stat(file, Hier(3), Hier(2), ov) ==
              (var v := if idNew == 999 then ov else if idNew == 1000 then idNew else idNew + 1000000; StatIds(v, v)) &&
            d.Stat(file, Hier(4), Hier(2), ov) == StatIds(ov, ov);
      var after := before.(uid := idNew, gid := idNew);
      assert d.entries == old(d.entries)[file := after];
      ChownSameLevel(2, after, id);
      r := d.Chown(file, Hier(2), Hier(2), LevelRoot(), id, id);
      ok := ok && r.Ok?;
      assert after.(uid := id, gid := id) == before;
      assert d.entries == old(d.entries)[file := after][file := before];
      UpdateRevert(old(d.entries), file, after);
      id := id + 1;
    }
  }

  /**
   * The walk of level 3: chown to 999 (unmapped) and chown of FILE1_999 (whose
   * owner is unmapped) must fail and leave the owner alone; every other chown
   * succeeds and is reverted.
   */
  method SweepLevel3(d: Directory, ov: nat) returns (ok: bool)
    requires Prepared(d.entries)
    modifies d
    ensures ok
    ensures d.entries == old(d.entries) && d.inode == old(d.inode)
  {
    ok := true;
    var id: nat := 0;
    while id <= IdFileRange
      invariant d.entries == old(d.entries) && d.inode == old(d.inode)
      invariant ok
    {
      var file := File1(id);
      var before := d.entries[file];
      var idNew := id + 1;
      assert before.uid == id && before.gid == id;
      ChownSameLevel(3, before, idNew);
      var r := d.Chown(file, Hier(3), Hier(3), LevelRoot(), idNew, idNew);
      assert file in d.entries;
      ok := ok && (if idNew == 999 || idNew == 1000 then r.Fail? else r.Ok?);
      ShownFromLevel3(d.entries[file].uid, ov);
      ok := ok &&
            d.Stat(file, Hier(1), Hier(3), ov) == StatIds(ov, ov) &&
            d.Stat(file, Hier(2), Hier(3), ov) == StatIds(ov, ov) &&
            d.Stat(file, Hier(3), Hier(3), ov) ==
              (var v := if idNew == 999 then id else if idNew == 1000 then ov else idNew; StatIds(v, v)) &&
            d.Stat(file, Hier(4), Hier(3), ov) == StatIds(ov, ov);
      if idNew != 999 && idNew != 1000 {
        var after := before.(uid := idNew, gid := idNew);
        assert d.entries == old(d.entries)[file := after];
        ChownSameLevel(3, after, id);
        r := d.Chown(file, Hier(3), Hier(3), LevelRoot(), id, id);
        ok := ok && r.Ok?;
        assert after.(uid := id, gid := id) == before;
        assert d.entries == old(d.entries)[file := after][file := before];
        UpdateRevert(old(d.entries), file, after);
      }
      id := id + 1;
    }
  }

  /** The walk of level 4, whose namespace has no map: every chown fails and everything shows as overflow. */
  method SweepLevel4(d: Directory, ov: nat) returns (ok: bool)
    requires Prepared(d.entries)
    modifies d
    ensures ok
    ensures d.entries == old(d.entries) && d.inode == old(d.inode)
  {
    ok := true;
    var id: nat := 0;
    while id <= IdFileRange
      invariant d.entries == old(d.entries) && d.inode == old(d.inode)
      invariant ok
    {
      var file := File1(id);
      var idNew := id + 1;
      ToInitClosedForms(idNew);
      var r := d.Chown(file, Hier(4), Hier(4), LevelRoot(), idNew, idNew);
      ShownFromLevel4(1, id, ov);
      ShownFromLevel4(2, id, ov);
      ShownFromLevel4(3, id, ov);
      ShownFromLevel4(4, id, ov);
      ok := ok && r.Fail? &&
            d.Stat(file, Hier(1), Hier(4), ov) == StatIds(ov, ov) &&
            d.Stat(file, Hier(2), Hier(4), ov) == StatIds(ov, ov) &&
            d.Stat(file, Hier(3), Hier(4), ov) == StatIds(ov, ov) &&
            d.Stat(file, Hier(4), Hier(4), ov) == StatIds(ov, ov);
      id := id + 1;
    }
  }
}
