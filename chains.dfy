// Nested user namespaces.  A namespace is described by the chain of maps from
// the initial namespace down to it: element 0 is the map of the outermost
// child of the initial namespace, the last element the map of the namespace
// itself.  The empty chain is the initial namespace.  An id crosses the chain
// one hop at a time and a miss at any hop is final.

module Chains {
  import opened IdMaps

  type Chain = seq<IdMap>

  predicate ChainWellFormed(c: Chain)
  {
    forall k :: 0 <= k < |c| ==> WellFormed(c[k])
  }

  /** An id of the innermost namespace of c, as an id of the initial namespace. */
  function ToInit(c: Chain, x: nat): Lookup
    decreases |c|
  {
    if |c| == 0 then Mapped(x)
    else match Forward(c[|c| - 1], x)
      case Unmapped => Unmapped
      case Mapped(y) => ToInit(c[..|c| - 1], y)
  }

  /** An id of the initial namespace, as an id of the innermost namespace of c. */
  function FromInit(c: Chain, v: nat): Lookup
    decreases |c|
  {
    if |c| == 0 then Mapped(v)
    else match FromInit(c[..|c| - 1], v)
      case Unmapped => Unmapped
      case Mapped(w) => Inverse(c[|c| - 1], w)
  }

  /** ToInit and FromInit lifted to a lookup that may already have missed. */
  function Up(c: Chain, l: Lookup): Lookup
  {
    match l
    case Unmapped => Unmapped
    case Mapped(x) => ToInit(c, x)
  }

  function Down(c: Chain, l: Lookup): Lookup
  {
    match l
    case Unmapped => Unmapped
    case Mapped(v) => FromInit(c, v)
  }

  lemma PrefixWellFormed(c: Chain, n: nat)
    requires ChainWellFormed(c) && n <= |c|
    ensures ChainWellFormed(c[..n])
  {
  }

  /** Crossing a well-formed chain up and crossing it down are inverse to each other. */
  lemma {:induction false} ChainRoundTrip(c: Chain, x: nat, v: nat)
    requires ChainWellFormed(c)
    ensures ToInit(c, x) == Mapped(v) <==> FromInit(c, v) == Mapped(x)
    decreases |c|
  {
    if |c| > 0 {
      var p, m := c[..|c| - 1], c[|c| - 1];
      PrefixWellFormed(c, |c| - 1);
      if ToInit(c, x) == Mapped(v) {
        var y := Forward(m, x).id;
        ChainRoundTrip(p, y, v);
        RoundTrip(m, x, y);
      }
      if FromInit(c, v) == Mapped(x) {
        var w := FromInit(p, v).id;
        ChainRoundTrip(p, w, v);
        RoundTrip(m, x, w);
      }
    }
  }

  /** Across a well-formed chain a valid id stays a valid id, in both directions. */
  lemma {:induction false} ChainBelowLimit(c: Chain, x: nat)
    requires ChainWellFormed(c) && x < IdLimit
    ensures ToInit(c, x).Mapped? ==> ToInit(c, x).id < IdLimit
    ensures FromInit(c, x).Mapped? ==> FromInit(c, x).id < IdLimit
    decreases |c|
  {
    if |c| > 0 {
      var p, m := c[..|c| - 1], c[|c| - 1];
      PrefixWellFormed(c, |c| - 1);
      LookupBelowLimit(m, x);
      if Forward(m, x).Mapped? {
        ChainBelowLimit(p, Forward(m, x).id);
      }
      ChainBelowLimit(p, x);
      if FromInit(p, x).Mapped? {
        LookupBelowLimit(m, FromInit(p, x).id);
      }
    }
  }

  /** A chain extended by q below p: the id first crosses q, then p. */
  lemma {:induction false} ToInitAppend(p: Chain, q: Chain, x: nat)
    ensures ToInit(p + q, x) == Up(p, ToInit(q, x))
    decreases |q|
  {
    if |q| > 0 {
      var c := p + q;
      assert c[..|c| - 1] == p + q[..|q| - 1];
      assert c[|c| - 1] == q[|q| - 1];
      match Forward(q[|q| - 1], x)
      case Unmapped =>
      case Mapped(y) => ToInitAppend(p, q[..|q| - 1], y);
    } else {
      assert p + q == p;
    }
  }

  lemma {:induction false} FromInitAppend(p: Chain, q: Chain, v: nat)
    ensures FromInit(p + q, v) == Down(q, FromInit(p, v))
    decreases |q|
  {
    if |q| > 0 {
      var c := p + q;
      assert c[..|c| - 1] == p + q[..|q| - 1];
      assert c[|c| - 1] == q[|q| - 1];
      FromInitAppend(p, q[..|q| - 1], v);
    } else {
      assert p + q == p;
      match FromInit(p, v)
      case Unmapped =>
      case Mapped(w) =>
    }
  }

  /** A namespace whose map is empty sees nothing of its ancestors and shows nothing to them. */
  lemma EmptyLevelHidesAll(c: Chain, x: nat, v: nat)
    ensures ToInit(c + [[]], x) == Unmapped
    ensures FromInit(c + [[]], v) == Unmapped
  {
    var c' := c + [[]];
    assert c'[|c'| - 1] == [];
    assert c'[..|c'| - 1] == c;
    match FromInit(c, v)
    case Unmapped =>
    case Mapped(w) =>
  }

  /**
   * A caller in namespace p looking at an id of a descendant namespace p + q
   * sees exactly what q alone makes of it, provided the result also exists
   * in the initial namespace.
   */
  lemma AncestorView(p: Chain, q: Chain, x: nat, y: nat)
    requires ChainWellFormed(p)
    ensures Down(p, ToInit(p + q, x)) == Mapped(y) <==>
            ToInit(q, x) == Mapped(y) && ToInit(p, y).Mapped?
  {
    ToInitAppend(p, q, x);
    match ToInit(q, x)
    case Unmapped =>
    case Mapped(z) =>
      if ToInit(p, z).Mapped? {
        ChainRoundTrip(p, z, ToInit(p, z).id);
        ChainRoundTrip(p, y, ToInit(p, z).id);
      }
  }
}
