/** The object graph below a value: which containers a depth-bounded walk
    through own properties reaches, and the shape conditions under which the
    recursive operations (`$merge`, and `$delimit` in merge mode) finish and
    touch only what they should. */
module Graphs {
  import opened Keys
  import opened Heaps

  /** `v instanceof Object`. */
  predicate InstObj(h: Store, v: Value) {
    v.Ref? && v.addr in h && h[v.addr].isObject
  }

  /** Container `a` is reachable from `v` through at most `d` own-property steps. */
  predicate Reaches(h: Store, v: Value, a: Addr, d: nat)
    decreases d
  {
    v.Ref? && v.addr in h &&
      (a == v.addr || (d > 0 && exists k :: k in h[v.addr].own && Reaches(h, h[v.addr].own[k], a, d - 1)))
  }

  /** The containers reachable from `v` through at most `d` own-property steps. */
  function FP(h: Store, v: Value, d: nat): set<Addr> {
    set a | a in h && Reaches(h, v, a, d)
  }

  /** Every chain of own references from `v` ends within `d` steps. */
  predicate Bounded(h: Store, v: Value, d: nat)
    decreases d
  {
    v.Ref? && v.addr in h ==>
      forall k :: k in h[v.addr].own && h[v.addr].own[k].Ref? ==> d > 0 && Bounded(h, h[v.addr].own[k], d - 1)
  }

  /** Down to depth `d`, `v` is a tree: no container is reachable twice and
      none reaches back to an ancestor. */
  predicate Unshared(h: Store, v: Value, d: nat)
    decreases d
  {
    v.Ref? && v.addr in h && d > 0 ==>
      var c := h[v.addr];
      && (forall k :: k in c.own ==> v.addr !in FP(h, c.own[k], d - 1) && Unshared(h, c.own[k], d - 1))
      && (forall k1, k2 :: k1 in c.own && k2 in c.own && k1 != k2 ==> FP(h, c.own[k1], d - 1) !! FP(h, c.own[k2], d - 1))
  }

  /** `h0` and `h1` hold the same containers at the addresses in `s`. */
  predicate AgreeOn(h0: Store, h1: Store, s: set<Addr>) {
    forall a :: a in s ==> a in h0 && a in h1 && h0[a] == h1[a]
  }

  /** Only containers of the store are reachable. */
  lemma {:induction false} ReachesIn(h: Store, v: Value, a: Addr, d: nat)
    requires Reaches(h, v, a, d)
    ensures a in h && a in FP(h, v, d)
    decreases d
  {
    if a != v.addr {
      var k :| k in h[v.addr].own && Reaches(h, h[v.addr].own[k], a, d - 1);
      ReachesIn(h, h[v.addr].own[k], a, d - 1);
    }
  }

  /** A child's footprint lies inside its parent's. */
  lemma FPChild(h: Store, a: Addr, k: Key, d: nat)
    requires a in h && k in h[a].own && d > 0
    ensures FP(h, h[a].own[k], d - 1) <= FP(h, Ref(a), d)
  {
  }

  /** Reachability below `v` looks only at containers in the footprint. */
  lemma {:induction false} ReachesAgree(h0: Store, h1: Store, v: Value, d: nat, a: Addr)
    requires h0.Keys == h1.Keys && AgreeOn(h0, h1, FP(h0, v, d))
    ensures Reaches(h1, v, a, d) == Reaches(h0, v, a, d)
    decreases d
  {
    if v.Ref? && v.addr in h0 {
      assert v.addr in FP(h0, v, d);
      var c := h0[v.addr];
      if d > 0 {
        forall k | k in c.own ensures Reaches(h1, c.own[k], a, d - 1) == Reaches(h0, c.own[k], a, d - 1) {
          FPChild(h0, v.addr, k, d);
          ReachesAgree(h0, h1, c.own[k], d - 1, a);
        }
      }
    }
  }

  /** The walk below `v` sees only the containers in its footprint, so two
      stores that agree there give the same footprint and the same shape. */
  lemma {:induction false} FPAgree(h0: Store, h1: Store, v: Value, d: nat)
    requires h0.Keys == h1.Keys && AgreeOn(h0, h1, FP(h0, v, d))
    ensures FP(h1, v, d) == FP(h0, v, d)
    ensures Bounded(h1, v, d) == Bounded(h0, v, d)
    ensures Unshared(h1, v, d) == Unshared(h0, v, d)
    decreases d
  {
    forall a | a in h0 ensures Reaches(h1, v, a, d) == Reaches(h0, v, a, d) {
      ReachesAgree(h0, h1, v, d, a);
    }
    if v.Ref? && v.addr in h0 && d > 0 {
      assert v.addr in FP(h0, v, d);
      var c := h0[v.addr];
      assert h1[v.addr] == c;
      forall k | k in c.own
        ensures FP(h1, c.own[k], d - 1) == FP(h0, c.own[k], d - 1)
        ensures Bounded(h1, c.own[k], d - 1) == Bounded(h0, c.own[k], d - 1)
        ensures Unshared(h1, c.own[k], d - 1) == Unshared(h0, c.own[k], d - 1)
      {
        FPChild(h0, v.addr, k, d);
        FPAgree(h0, h1, c.own[k], d - 1);
      }
    }
  }

  /** Deeper bounds still hold. */
  lemma {:induction false} BoundedMono(h: Store, v: Value, d: nat, e: nat)
    requires Bounded(h, v, d) && d <= e
    ensures Bounded(h, v, e)
    decreases d
  {
    if v.Ref? && v.addr in h {
      forall k | k in h[v.addr].own && h[v.addr].own[k].Ref?
        ensures e > 0 && Bounded(h, h[v.addr].own[k], e - 1)
      {
        BoundedMono(h, h[v.addr].own[k], d - 1, e - 1);
      }
    }
  }
}
