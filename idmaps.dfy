// User-namespace id maps as installed through /proc/<pid>/uid_map and gid_map.
//
// An extent maps `count` consecutive ids starting at `nsFirst` inside the
// namespace onto ids starting at `parentFirst` in the parent namespace.  The
// kernel looks ids up in both directions: down (namespace id to parent id,
// `map_id_down`) and up (parent id to namespace id, `map_id_up`).  An id that
// falls into no extent has no mapping.

module IdMaps {

  /**
   * Ids are 32-bit.  (uid_t)-1 is the invalid id, and map_write refuses an
   * extent whose first + count wraps, so every mapped id lies below IdLimit.
   */
  const IdLimit: nat := 4294967295

  datatype Extent = Extent(nsFirst: nat, parentFirst: nat, count: nat)

  /** A map is the list of its extents, in the order they were written. */
  type IdMap = seq<Extent>

  datatype Lookup = Mapped(id: nat) | Unmapped

  predicate InNs(e: Extent, x: nat)
  {
    e.nsFirst <= x < e.nsFirst + e.count
  }

  predicate InParent(e: Extent, y: nat)
  {
    e.parentFirst <= y < e.parentFirst + e.count
  }

  /** Two extents overlap neither on the namespace side nor on the parent side. */
  predicate Disjoint(e: Extent, f: Extent)
  {
    (e.nsFirst + e.count <= f.nsFirst || f.nsFirst + f.count <= e.nsFirst) &&
    (e.parentFirst + e.count <= f.parentFirst || f.parentFirst + f.count <= e.parentFirst)
  }

  /** Neither end of the extent runs past the last valid 32-bit id. */
  predicate InRange(e: Extent)
  {
    e.nsFirst + e.count <= IdLimit && e.parentFirst + e.count <= IdLimit
  }

  predicate NoOverlap(m: IdMap)
  {
    forall i, j :: 0 <= i < j < |m| ==> Disjoint(m[i], m[j])
  }

  /** The kernel refuses to install a map whose extents overlap or wrap around. */
  predicate WellFormed(m: IdMap)
  {
    NoOverlap(m) && forall i :: 0 <= i < |m| ==> InRange(m[i])
  }

  /** Namespace id to parent id: the first extent holding x decides. */
  function Forward(m: IdMap, x: nat): (r: Lookup)
    ensures r.Mapped? <==> exists i :: 0 <= i < |m| && InNs(m[i], x)
    ensures r.Mapped? ==>
      exists i :: 0 <= i < |m| && InNs(m[i], x) && r.id == m[i].parentFirst + (x - m[i].nsFirst)
  {
    if |m| == 0 then Unmapped
    else if InNs(m[0], x) then Mapped(m[0].parentFirst + (x - m[0].nsFirst))
    else
      var r := Forward(m[1..], x);
      assert forall i :: 1 <= i < |m| ==> m[i] == m[1..][i - 1];
      r
  }

  /** Parent id to namespace id: the first extent holding y decides. */
  function Inverse(m: IdMap, y: nat): (r: Lookup)
    ensures r.Mapped? <==> exists i :: 0 <= i < |m| && InParent(m[i], y)
    ensures r.Mapped? ==>
      exists i :: 0 <= i < |m| && InParent(m[i], y) && r.id == m[i].nsFirst + (y - m[i].parentFirst)
  {
    if |m| == 0 then Unmapped
    else if InParent(m[0], y) then Mapped(m[0].nsFirst + (y - m[0].parentFirst))
    else
      var r := Inverse(m[1..], y);
      assert forall i :: 1 <= i < |m| ==> m[i] == m[1..][i - 1];
      r
  }

  /** In a map without overlaps every extent holding x gives the same answer as the lookup. */
  lemma {:induction false} ForwardAt(m: IdMap, i: nat, x: nat)
    requires NoOverlap(m)
    requires i < |m| && InNs(m[i], x)
    ensures Forward(m, x) == Mapped(m[i].parentFirst + (x - m[i].nsFirst))
    decreases |m|
  {
    if i > 0 {
      assert Disjoint(m[0], m[i]);
      assert m[1..][i - 1] == m[i];
      ForwardAt(m[1..], i - 1, x);
    }
  }

  lemma {:induction false} InverseAt(m: IdMap, i: nat, y: nat)
    requires NoOverlap(m)
    requires i < |m| && InParent(m[i], y)
    ensures Inverse(m, y) == Mapped(m[i].nsFirst + (y - m[i].parentFirst))
    decreases |m|
  {
    if i > 0 {
      assert Disjoint(m[0], m[i]);
      assert m[1..][i - 1] == m[i];
      InverseAt(m[1..], i - 1, y);
    }
  }

  /** The two lookups of a well-formed map are inverse to each other. */
  lemma RoundTrip(m: IdMap, x: nat, y: nat)
    requires WellFormed(m)
    ensures Forward(m, x) == Mapped(y) <==> Inverse(m, y) == Mapped(x)
  {
    if Forward(m, x) == Mapped(y) {
      var i :| 0 <= i < |m| && InNs(m[i], x) && y == m[i].parentFirst + (x - m[i].nsFirst);
      InverseAt(m, i, y);
    }
    if Inverse(m, y) == Mapped(x) {
      var i :| 0 <= i < |m| && InParent(m[i], y) && x == m[i].nsFirst + (y - m[i].parentFirst);
      ForwardAt(m, i, x);
    }
  }

  /** A well-formed map never yields the invalid id, in either direction. */
  lemma LookupBelowLimit(m: IdMap, x: nat)
    requires WellFormed(m)
    ensures Forward(m, x).Mapped? ==> Forward(m, x).id < IdLimit
    ensures Inverse(m, x).Mapped? ==> Inverse(m, x).id < IdLimit
  {
    if Forward(m, x).Mapped? {
      var i :| 0 <= i < |m| && InNs(m[i], x) && Forward(m, x).id == m[i].parentFirst + (x - m[i].nsFirst);
      assert InRange(m[i]);
    }
    if Inverse(m, x).Mapped? {
      var i :| 0 <= i < |m| && InParent(m[i], x) && Inverse(m, x).id == m[i].nsFirst + (x - m[i].parentFirst);
      assert InRange(m[i]);
    }
  }

  /** Distinct namespace ids never share a parent id. */
  lemma ForwardInjective(m: IdMap, x1: nat, x2: nat)
    requires WellFormed(m)
    requires Forward(m, x1).Mapped? && Forward(m, x1) == Forward(m, x2)
    ensures x1 == x2
  {
    var y := Forward(m, x1).id;
    RoundTrip(m, x1, y);
    RoundTrip(m, x2, y);
  }

  /**
   * get_userns_fd(nsid, hostid, range): a namespace with the single extent
   * nsid..nsid+range-1 -> hostid..hostid+range-1, which the kernel accepts
   * exactly when neither end wraps around.
   */
  function GetUsernsFd(nsid: nat, hostid: nat, range: nat): (m: IdMap)
    ensures WellFormed(m) <==> nsid + range <= IdLimit && hostid + range <= IdLimit
    ensures forall h: nat :: Forward(m, h) ==
                              (if nsid <= h < nsid + range then Mapped(hostid + (h - nsid)) else Unmapped)
    ensures forall v: nat :: Inverse(m, v) ==
                              (if hostid <= v < hostid + range then Mapped(nsid + (v - hostid)) else Unmapped)
  {
    var m := [Extent(nsid, hostid, range)];
    assert WellFormed(m) ==> InRange(m[0]);
    m
  }

  /** add_map_entry(list, parent_id, ns_id, range): append one extent to a map under construction. */
  function AddMapEntry(m: IdMap, parentId: nat, nsId: nat, range: nat): (r: IdMap)
    ensures |r| == |m| + 1 && r[..|m|] == m
    ensures r[|m|] == Extent(nsId, parentId, range)
  {
    m + [Extent(nsId, parentId, range)]
  }

  /**
   * Appending an extent that overlaps no existing one keeps the map free of
   * overlaps, and well formed exactly when the new extent does not wrap.
   */
  lemma AddMapEntryWellFormed(m: IdMap, parentId: nat, nsId: nat, range: nat)
    requires WellFormed(m)
    requires forall i :: 0 <= i < |m| ==> Disjoint(m[i], Extent(nsId, parentId, range))
    ensures NoOverlap(AddMapEntry(m, parentId, nsId, range))
    ensures WellFormed(AddMapEntry(m, parentId, nsId, range)) <==> InRange(Extent(nsId, parentId, range))
  {
    var r := AddMapEntry(m, parentId, nsId, range);
    assert r[|m|] == Extent(nsId, parentId, range);
  }

  /** After add_map_entry, ids of the new extent map through it and every other id maps as before. */
  lemma {:induction false} AddMapEntryForward(m: IdMap, parentId: nat, nsId: nat, range: nat, x: nat)
    requires WellFormed(m)
    requires forall i :: 0 <= i < |m| ==> Disjoint(m[i], Extent(nsId, parentId, range))
    ensures Forward(AddMapEntry(m, parentId, nsId, range), x) ==
      if nsId <= x < nsId + range then Mapped(parentId + (x - nsId)) else Forward(m, x)
  {
    var r := AddMapEntry(m, parentId, nsId, range);
    AddMapEntryWellFormed(m, parentId, nsId, range);
    if nsId <= x < nsId + range {
      ForwardAt(r, |m|, x);
    } else if Forward(m, x).Mapped? {
      var i :| 0 <= i < |m| && InNs(m[i], x) && Forward(m, x).id == m[i].parentFirst + (x - m[i].nsFirst);
      ForwardAt(m, i, x);
      ForwardAt(r, i, x);
    } else {
      assert forall i :: 0 <= i < |r| ==> !InNs(r[i], x) by {
        forall i | 0 <= i < |r|
          ensures !InNs(r[i], x)
        {
          if i < |m| {
            assert r[i] == m[i];
          }
        }
      }
    }
  }

  /** The inverse lookup of the extended map: parent ids of the new extent map back through it, all others as before. */
  lemma {:induction false} AddMapEntryInverse(m: IdMap, parentId: nat, nsId: nat, range: nat, y: nat)
    requires WellFormed(m)
    requires forall i :: 0 <= i < |m| ==> Disjoint(m[i], Extent(nsId, parentId, range))
    ensures Inverse(AddMapEntry(m, parentId, nsId, range), y) ==
      if parentId <= y < parentId + range then Mapped(nsId + (y - parentId)) else Inverse(m, y)
  {
    var r := AddMapEntry(m, parentId, nsId, range);
    AddMapEntryWellFormed(m, parentId, nsId, range);
    if parentId <= y < parentId + range {
      InverseAt(r, |m|, y);
    } else if Inverse(m, y).Mapped? {
      var i :| 0 <= i < |m| && InParent(m[i], y) && Inverse(m, y).id == m[i].nsFirst + (y - m[i].parentFirst);
      InverseAt(m, i, y);
      InverseAt(r, i, y);
    } else {
      assert forall i :: 0 <= i < |r| ==> !InParent(r[i], y) by {
        forall i | 0 <= i < |r|
          ensures !InParent(r[i], y)
        {
          if i < |m| {
            assert r[i] == m[i];
          }
        }
      }
    }
  }
}
