/** `$merge(orig, obj)`: a recursive, in-place deep merge.

  For each key `obj` owns, the merge descends when both sides hold an
  `instanceof Object` value and assigns `obj`'s value otherwise. Arrays are
  merged key by key like any other object, so `{a: [3]}` merged into
  `{a: [1, 2]}` leaves `[3, 2]`.

  The specification is relational: `Merged(h0, h1, o, s, d)` says what each
  container the merge writes to holds afterwards (`MergedOn`), and that
  every other container is as it was. The shape conditions in `MergePre`
  (the merged-into value is a tree, the merged-from value is finite, the two
  share nothing) make the merge finish and make its result independent of
  the order in which `for (key in obj)` visits the keys.
 */
module MergeSpec {
  import opened Keys
  import opened Heaps
  import opened Iterator
  import opened Graphs

  /** The keys `for (key in obj)` enumerates on container `s`. */
  function ForInKeys(h: Store, s: Addr): set<Key> {
    if s in h then EnumKeys(h[s], false) else {}
  }

  /** The keys the merge descends into: owned by `obj`, with an
      `instanceof Object` value on both sides. */
  function RecKeys(h: Store, o: Addr, s: Addr): set<Key> {
    set k | k in ForInKeys(h, s) && HasOwn(h, Ref(s), k) && InstObj(h, Get(h, Ref(o), k)) && InstObj(h, Get(h, Ref(s), k))
  }

  /** Among the keys `P`, those the merge assigns on `orig` (an array ignores
      a write to its `length`). */
  function Written(h: Store, o: Addr, s: Addr, P: set<Key>): set<Key> {
    set k | k in P && HasOwn(h, Ref(s), k) && !(o in h && IsLengthOfArray(h[o], k))
  }

  /** The container `a[k]` refers to (only used where it refers to one). */
  function ChildAddr(h: Store, a: Addr, k: Key): Addr {
    var v := Get(h, Ref(a), k);
    if v.Ref? then v.addr else a
  }

  /** An array of length `l0` that receives writes at keys `w` ends with
      length `l`: one past the largest index written, if that is larger. */
  predicate IsLenAfter(l0: nat, w: set<Key>, l: nat) {
    && l0 <= l
    && (forall k :: k in w && k.Index? ==> k.i < l)
    && (l == l0 || Index(l - 1) in w)
  }

  /** `orig`'s own container after the keys `P` have been merged: obj's value
      at each written key it does not descend into, the old value elsewhere. */
  predicate RootMergedOn(h0: Store, o: Addr, s: Addr, P: set<Key>, c': Cell)
    requires o in h0
  {
    var c := h0[o];
    var w := Written(h0, o, s, P);
    var rec := RecKeys(h0, o, s);
    && c'.cls == c.cls && c'.isObject == c.isObject && c'.inherited == c.inherited && c'.prim == c.prim
    && c'.own.Keys == c.own.Keys + w
    && (forall k :: k in w && k !in rec ==> k in c'.own && c'.own[k] == Get(h0, Ref(s), k))
    && (forall k :: k in c'.own && !(k in w && k !in rec) ==> k in c.own && c'.own[k] == c.own[k])
    && (if c.cls == "Array" then IsLenAfter(c.len, w, c'.len) else c'.len == c.len)
  }

  /** The containers the merge of `s` into `o` writes to, once the keys `P`
      of `s` have been handled: `o` and, recursively, the containers below
      each key in `P` it descended into. */
  predicate Touches(h0: Store, o: Addr, s: Addr, d: nat, P: set<Key>, a: Addr)
    decreases d
  {
    || a == o
    || (d > 0 &&
        exists k :: (k in RecKeys(h0, o, s) && k in P &&
                     Touches(h0, ChildAddr(h0, o, k), ChildAddr(h0, s, k), d - 1, ForInKeys(h0, ChildAddr(h0, s, k)), a)))
  }

  /** Every container the merge writes to holds what it should, once the keys
      `P` of `s` have been handled. */
  predicate MergedOn(h0: Store, h1: Store, o: Addr, s: Addr, d: nat, P: set<Key>)
    decreases d
  {
    && o in h0 && s in h0 && o in h1
    && RootMergedOn(h0, o, s, P, h1[o])
    && (d > 0 ==>
          forall k :: k in RecKeys(h0, o, s) && k in P ==>
            MergedOn(h0, h1, ChildAddr(h0, o, k), ChildAddr(h0, s, k), d - 1, ForInKeys(h0, ChildAddr(h0, s, k))))
  }

  /** The effect of merging `s` into `o` once the keys `P` have been handled:
      the containers written so far hold what they should, every other
      container is as it was. */
  predicate MergedUpTo(h0: Store, h1: Store, o: Addr, s: Addr, d: nat, P: set<Key>) {
    UnchangedOutside(h0, h1, o, s, d, P) && MergedOn(h0, h1, o, s, d, P)
  }

  /** Only containers the merge writes to have changed. */
  predicate UnchangedOutside(h0: Store, h1: Store, o: Addr, s: Addr, d: nat, P: set<Key>) {
    && h1.Keys == h0.Keys
    && (forall a :: a in h0 && !Touches(h0, o, s, d, P, a) ==> h1[a] == h0[a])
  }

  /** The complete effect of merging `s` into `o`. */
  predicate Merged(h0: Store, h1: Store, o: Addr, s: Addr, d: nat) {
    MergedUpTo(h0, h1, o, s, d, ForInKeys(h0, s))
  }

  /** The shape the merge needs: `obj` is finite below depth `d`, `orig` is a
      tree down to it, and the two share no container. */
  predicate MergePre(h: Store, o: Addr, s: Addr, d: nat) {
    && Bounded(h, Ref(s), d)
    && Unshared(h, Ref(o), d)
    && FP(h, Ref(o), d) !! FP(h, Ref(s), d)
  }

  /** A key the merge descends into is an own key on both sides, holding a
      reference to an `instanceof Object` container. */
  lemma RecChild(h0: Store, o: Addr, s: Addr, k: Key)
    requires WellFormed(h0) && o in h0 && s in h0 && k in RecKeys(h0, o, s)
    ensures k in h0[o].own && h0[o].own[k] == Ref(ChildAddr(h0, o, k)) && !IsLengthOfArray(h0[o], k)
    ensures k in h0[s].own && h0[s].own[k] == Ref(ChildAddr(h0, s, k)) && !IsLengthOfArray(h0[s], k)
    ensures ChildAddr(h0, o, k) in h0 && ChildAddr(h0, s, k) in h0
  {
    assert CellOk(h0, h0[o]) && CellOk(h0, h0[s]);
  }

  /** The merge writes only below `orig`. */
  lemma {:induction false} TouchesReach(h0: Store, o: Addr, s: Addr, d: nat, P: set<Key>, a: Addr)
    requires WellFormed(h0) && o in h0 && s in h0 && Touches(h0, o, s, d, P, a)
    ensures Reaches(h0, Ref(o), a, d)
    decreases d
  {
    if a != o {
      var k :| k in RecKeys(h0, o, s) && k in P &&
        Touches(h0, ChildAddr(h0, o, k), ChildAddr(h0, s, k), d - 1, ForInKeys(h0, ChildAddr(h0, s, k)), a);
      RecChild(h0, o, s, k);
      TouchesReach(h0, ChildAddr(h0, o, k), ChildAddr(h0, s, k), d - 1, ForInKeys(h0, ChildAddr(h0, s, k)), a);
    }
  }

  /** `MergedOn` looks at the new store only where the merge writes. */
  lemma {:induction false} MergedOnFrameOut(h0: Store, h1: Store, h1': Store, o: Addr, s: Addr, d: nat, P: set<Key>)
    requires MergedOn(h0, h1, o, s, d, P)
    requires forall a :: Touches(h0, o, s, d, P, a) ==> a in h1 && a in h1' && h1'[a] == h1[a]
    ensures MergedOn(h0, h1', o, s, d, P)
    decreases d
  {
    assert Touches(h0, o, s, d, P, o);
    if d > 0 {
      forall k | k in RecKeys(h0, o, s) && k in P
        ensures MergedOn(h0, h1', ChildAddr(h0, o, k), ChildAddr(h0, s, k), d - 1, ForInKeys(h0, ChildAddr(h0, s, k)))
      {
        var co, cs := ChildAddr(h0, o, k), ChildAddr(h0, s, k);
        forall a | Touches(h0, co, cs, d - 1, ForInKeys(h0, cs), a) ensures a in h1 && a in h1' && h1'[a] == h1[a] {
          assert Touches(h0, o, s, d, P, a);
        }
        MergedOnFrameOut(h0, h1, h1', co, cs, d - 1, ForInKeys(h0, cs));
      }
    }
  }

  /** Which keys the merge descends into depends only on the two containers
      and the containers their own properties refer to. */
  lemma RecKeysAgree(h0: Store, h0': Store, o: Addr, s: Addr, d: nat)
    requires WellFormed(h0) && o in h0 && s in h0 && h0.Keys == h0'.Keys
    requires AgreeOn(h0, h0', FP(h0, Ref(o), d) + FP(h0, Ref(s), d))
    requires Bounded(h0, Ref(s), d)
    ensures h0'[o] == h0[o] && h0'[s] == h0[s]
    ensures RecKeys(h0', o, s) == RecKeys(h0, o, s)
  {
    assert o in FP(h0, Ref(o), d) && s in FP(h0, Ref(s), d);
    assert CellOk(h0, h0[o]) && CellOk(h0, h0[s]);
    forall k | k in ForInKeys(h0, s) && HasOwn(h0, Ref(s), k)
      ensures (InstObj(h0', Get(h0, Ref(o), k)) && InstObj(h0', Get(h0, Ref(s), k)))
           == (InstObj(h0, Get(h0, Ref(o), k)) && InstObj(h0, Get(h0, Ref(s), k)))
    {
      var vo, vs := Get(h0, Ref(o), k), Get(h0, Ref(s), k);
      if vs.Ref? {
        assert k in h0[s].own && h0[s].own[k] == vs;
        assert d > 0;
        FPChild(h0, s, k, d);
        assert vs.addr in FP(h0, vs, d - 1);
      }
      if vo.Ref? && d > 0 {
        assert k in h0[o].own && h0[o].own[k] == vo;
        FPChild(h0, o, k, d);
        assert vo.addr in FP(h0, vo, d - 1);
      }
    }
  }

  /** Below a key the merge descends into, the two stores still agree. */
  lemma ChildAgree(h0: Store, h0': Store, o: Addr, s: Addr, d: nat, k: Key)
    requires WellFormed(h0) && o in h0 && s in h0 && h0.Keys == h0'.Keys
    requires AgreeOn(h0, h0', FP(h0, Ref(o), d) + FP(h0, Ref(s), d))
    requires Bounded(h0, Ref(s), d)
    requires k in RecKeys(h0, o, s)
    ensures d > 0
    ensures ChildAddr(h0', o, k) == ChildAddr(h0, o, k) && ChildAddr(h0', s, k) == ChildAddr(h0, s, k)
    ensures ChildAddr(h0, o, k) in h0 && ChildAddr(h0, s, k) in h0
    ensures ForInKeys(h0', ChildAddr(h0, s, k)) == ForInKeys(h0, ChildAddr(h0, s, k))
    ensures AgreeOn(h0, h0', FP(h0, Ref(ChildAddr(h0, o, k)), d - 1) + FP(h0, Ref(ChildAddr(h0, s, k)), d - 1))
    ensures Bounded(h0, Ref(ChildAddr(h0, s, k)), d - 1)
  {
    RecKeysAgree(h0, h0', o, s, d);
    RecChild(h0, o, s, k);
    var cs := ChildAddr(h0, s, k);
    FPChild(h0, o, k, d);
    FPChild(h0, s, k, d);
    assert cs in FP(h0, Ref(cs), d - 1);
  }

  /** The writes the merge specifies depend on the old store only below the two values ... */
  lemma {:induction false} TouchesAgree(h0: Store, h0': Store, o: Addr, s: Addr, d: nat, P: set<Key>, a: Addr)
    requires WellFormed(h0) && o in h0 && s in h0 && h0.Keys == h0'.Keys
    requires AgreeOn(h0, h0', FP(h0, Ref(o), d) + FP(h0, Ref(s), d))
    requires Bounded(h0, Ref(s), d)
    ensures Touches(h0', o, s, d, P, a) == Touches(h0, o, s, d, P, a)
    decreases d
  {
    RecKeysAgree(h0, h0', o, s, d);
    if d > 0 {
      forall k | k in RecKeys(h0, o, s) && k in P
        ensures Touches(h0', ChildAddr(h0', o, k), ChildAddr(h0', s, k), d - 1, ForInKeys(h0', ChildAddr(h0', s, k)), a)
             == Touches(h0, ChildAddr(h0, o, k), ChildAddr(h0, s, k), d - 1, ForInKeys(h0, ChildAddr(h0, s, k)), a)
      {
        ChildAgree(h0, h0', o, s, d, k);
        TouchesAgree(h0, h0', ChildAddr(h0, o, k), ChildAddr(h0, s, k), d - 1, ForInKeys(h0, ChildAddr(h0, s, k)), a);
      }
    }
  }

  /** The specified new root container depends only on the two values' containers. */
  lemma RootMergedAgree(h0: Store, h0': Store, o: Addr, s: Addr, d: nat, P: set<Key>, h1: Store)
    requires WellFormed(h0) && o in h0 && s in h0 && h0.Keys == h0'.Keys
    requires AgreeOn(h0, h0', FP(h0, Ref(o), d) + FP(h0, Ref(s), d))
    requires Bounded(h0, Ref(s), d)
    ensures RecKeys(h0', o, s) == RecKeys(h0, o, s)
    ensures o in h1 ==> RootMergedOn(h0', o, s, P, h1[o]) == RootMergedOn(h0, o, s, P, h1[o])
  {
    RecKeysAgree(h0, h0', o, s, d);
    assert Written(h0', o, s, P) == Written(h0, o, s, P);
  }

  /** ... and so does what they write. */
  lemma {:induction false} MergedOnAgree(h0: Store, h0': Store, h1: Store, o: Addr, s: Addr, d: nat, P: set<Key>)
    requires WellFormed(h0) && o in h0 && s in h0 && h0.Keys == h0'.Keys
    requires AgreeOn(h0, h0', FP(h0, Ref(o), d) + FP(h0, Ref(s), d))
    requires Bounded(h0, Ref(s), d)
    ensures MergedOn(h0', h1, o, s, d, P) == MergedOn(h0, h1, o, s, d, P)
    decreases d
  {
    RootMergedAgree(h0, h0', o, s, d, P, h1);
    if d > 0 {
      forall k | k in RecKeys(h0, o, s) && k in P
        ensures MergedOn(h0', h1, ChildAddr(h0', o, k), ChildAddr(h0', s, k), d - 1, ForInKeys(h0', ChildAddr(h0', s, k)))
             == MergedOn(h0, h1, ChildAddr(h0, o, k), ChildAddr(h0, s, k), d - 1, ForInKeys(h0, ChildAddr(h0, s, k)))
      {
        ChildAgree(h0, h0', o, s, d, k);
        MergedOnAgree(h0, h0', h1, ChildAddr(h0, o, k), ChildAddr(h0, s, k), d - 1, ForInKeys(h0, ChildAddr(h0, s, k)));
      }
    }
  }
}
