/** `$merge(orig, obj)`, proved against the relational specification in
    `MergeSpec`. The lemmas below are the steps of its `for (key in obj)`
    loop: a key `obj` does not own, a key whose value is assigned, and a key
    the merge descends into. */
module Merger {
  import opened Keys
  import opened Heaps
  import opened Iterator
  import opened Graphs
  import opened MergeSpec

  /** A container the merge has written lies below `orig`, at `orig` itself
      or below one of the keys handled so far. */
  lemma TouchedBelow(h0: Store, o: Addr, s: Addr, d: nat, P: set<Key>, a: Addr) returns (k: Key)
    requires WellFormed(h0) && o in h0 && s in h0 && Touches(h0, o, s, d, P, a) && a != o
    ensures d > 0 && k in RecKeys(h0, o, s) && k in P
    ensures a in FP(h0, Ref(ChildAddr(h0, o, k)), d - 1)
  {
    k :| k in RecKeys(h0, o, s) && k in P &&
      Touches(h0, ChildAddr(h0, o, k), ChildAddr(h0, s, k), d - 1, ForInKeys(h0, ChildAddr(h0, s, k)), a);
    RecChild(h0, o, s, k);
    TouchesReach(h0, ChildAddr(h0, o, k), ChildAddr(h0, s, k), d - 1, ForInKeys(h0, ChildAddr(h0, s, k)), a);
    ReachesIn(h0, Ref(ChildAddr(h0, o, k)), a, d - 1);
  }

  /** The merge writes neither below `obj` ... */
  lemma NotTouchedSource(h0: Store, o: Addr, s: Addr, d: nat, P: set<Key>, a: Addr)
    requires WellFormed(h0) && o in h0 && s in h0 && MergePre(h0, o, s, d)
    requires a in FP(h0, Ref(s), d)
    ensures !Touches(h0, o, s, d, P, a)
  {
    if Touches(h0, o, s, d, P, a) {
      TouchesReach(h0, o, s, d, P, a);
      ReachesIn(h0, Ref(o), a, d);
    }
  }

  /** ... nor below a key of `orig` it has not handled yet. */
  lemma NotTouchedSibling(h0: Store, o: Addr, s: Addr, d: nat, P: set<Key>, k: Key, a: Addr)
    requires WellFormed(h0) && o in h0 && s in h0 && MergePre(h0, o, s, d)
    requires d > 0 && k in h0[o].own && k !in P && a in FP(h0, h0[o].own[k], d - 1)
    ensures !Touches(h0, o, s, d, P, a)
  {
    if Touches(h0, o, s, d, P, a) {
      assert a != o;
      var k' := TouchedBelow(h0, o, s, d, P, a);
      RecChild(h0, o, s, k');
      assert false;
    }
  }

  /** What the loop reads at key `k`, in the current store, is what it would
      have read in the store the merge started from. */
  lemma MergeCurrent(h0: Store, hc: Store, o: Addr, s: Addr, d: nat, P: set<Key>, k: Key)
    requires WellFormed(h0) && o in h0 && s in h0 && MergePre(h0, o, s, d)
    requires MergedUpTo(h0, hc, o, s, d, P) && k !in P && k in ForInKeys(h0, s)
    ensures hc[s] == h0[s]
    ensures HasOwn(hc, Ref(s), k) == HasOwn(h0, Ref(s), k) && Get(hc, Ref(s), k) == Get(h0, Ref(s), k)
    ensures HasOwn(h0, Ref(s), k) ==>
              ((InstObj(hc, Get(hc, Ref(o), k)) && InstObj(hc, Get(hc, Ref(s), k))) <==>
               k in RecKeys(h0, o, s))
    ensures k in RecKeys(h0, o, s) ==> Get(hc, Ref(o), k) == Ref(ChildAddr(h0, o, k))
  {
    SourceSame(h0, hc, o, s, d, P, s);
    OrigKeySame(h0, hc, o, s, d, P, k);
    if HasOwn(h0, Ref(s), k) {
      SourceChildSame(h0, hc, o, s, d, P, k);
      if Get(h0, Ref(s), k).Ref? {
        OrigChildSame(h0, hc, o, s, d, P, k);
      }
    }
  }

  /** The merge has not written the container `a` below `obj`. */
  lemma SourceSame(h0: Store, hc: Store, o: Addr, s: Addr, d: nat, P: set<Key>, a: Addr)
    requires WellFormed(h0) && o in h0 && s in h0 && MergePre(h0, o, s, d)
    requires MergedUpTo(h0, hc, o, s, d, P) && a in FP(h0, Ref(s), d)
    ensures a in hc && hc[a] == h0[a]
  {
    NotTouchedSource(h0, o, s, d, P, a);
  }

  /** `orig[k]` for a key not handled yet is what it was (an array's length may have grown). */
  lemma OrigKeySame(h0: Store, hc: Store, o: Addr, s: Addr, d: nat, P: set<Key>, k: Key)
    requires o in h0 && s in h0 && MergedUpTo(h0, hc, o, s, d, P) && k !in P
    ensures !IsLengthOfArray(h0[o], k) ==> Get(hc, Ref(o), k) == Get(h0, Ref(o), k)
  {
    assert k !in Written(h0, o, s, P);
  }

  /** The container `obj[k]` refers to is not written. */
  lemma SourceChildSame(h0: Store, hc: Store, o: Addr, s: Addr, d: nat, P: set<Key>, k: Key)
    requires WellFormed(h0) && o in h0 && s in h0 && MergePre(h0, o, s, d)
    requires MergedUpTo(h0, hc, o, s, d, P) && HasOwn(h0, Ref(s), k)
    ensures var sv := Get(h0, Ref(s), k); sv.Ref? ==> sv.addr in h0 && sv.addr in hc && hc[sv.addr] == h0[sv.addr]
  {
    var sv := Get(h0, Ref(s), k);
    assert CellOk(h0, h0[s]);
    if sv.Ref? {
      assert k in h0[s].own && h0[s].own[k] == sv;
      FPChild(h0, s, k, d);
      assert sv.addr in FP(h0, sv, d - 1);
      SourceSame(h0, hc, o, s, d, P, sv.addr);
    }
  }

  /** The container `orig[k]` refers to, for a key not handled yet, is not written. */
  lemma OrigChildSame(h0: Store, hc: Store, o: Addr, s: Addr, d: nat, P: set<Key>, k: Key)
    requires WellFormed(h0) && o in h0 && s in h0 && MergePre(h0, o, s, d)
    requires MergedUpTo(h0, hc, o, s, d, P) && k !in P && HasOwn(h0, Ref(s), k) && Get(h0, Ref(s), k).Ref?
    ensures var ov := Get(h0, Ref(o), k); ov.Ref? ==> ov.addr in h0 && ov.addr in hc && hc[ov.addr] == h0[ov.addr]
  {
    var ov := Get(h0, Ref(o), k);
    assert CellOk(h0, h0[o]) && CellOk(h0, h0[s]);
    if ov.Ref? {
      assert k in h0[s].own;
      FPChild(h0, s, k, d);
      assert k in h0[o].own && h0[o].own[k] == ov;
      assert ov.addr in FP(h0, ov, d - 1);
      NotTouchedSibling(h0, o, s, d, P, k, ov.addr);
    }
  }

  /** Before the loop nothing is handled and nothing has changed. */
  /** Once every key `for (key in obj)` enumerates is handled, the merge is done. */
  lemma MergeEnd(h0: Store, h1: Store, o: Addr, s: Addr, d: nat, P: set<Key>, remaining: set<Key>)
    requires s in h0 && MergedUpTo(h0, h1, o, s, d, P) && P == EnumKeys(h0[s], false) - remaining && remaining == {}
    ensures Merged(h0, h1, o, s, d)
  {
  }

  lemma MergeInit(h0: Store, o: Addr, s: Addr, d: nat)
    requires o in h0 && s in h0
    ensures MergedUpTo(h0, h0, o, s, d, {})
  {
    assert Written(h0, o, s, {}) == {};
  }

  /** Handling a key `obj` does not own changes nothing. */
  lemma StepSkip(h0: Store, hc: Store, o: Addr, s: Addr, d: nat, P: set<Key>, k: Key)
    requires MergedUpTo(h0, hc, o, s, d, P) && k !in P && !HasOwn(h0, Ref(s), k)
    ensures MergedUpTo(h0, hc, o, s, d, P + {k})
  {
    assert k !in RecKeys(h0, o, s);
    assert Written(h0, o, s, P + {k}) == Written(h0, o, s, P);
    forall a | a in h0 && !Touches(h0, o, s, d, P + {k}, a) ensures hc[a] == h0[a] {
      assert !Touches(h0, o, s, d, P, a);
    }
  }

  /** `orig[k] = obj[k]` at a key the merge does not descend into gives the
      root container the specification asks for. */
  lemma RootStepWrite(h0: Store, o: Addr, s: Addr, P: set<Key>, k: Key, c1: Cell)
    requires o in h0 && RootMergedOn(h0, o, s, P, c1)
    requires k !in P && HasOwn(h0, Ref(s), k) && k !in RecKeys(h0, o, s)
    ensures RootMergedOn(h0, o, s, P + {k}, SetProp(c1, k, Get(h0, Ref(s), k)))
  {
    if IsLengthOfArray(h0[o], k) {
      RootStepLength(h0, o, s, P, k, c1);
    } else {
      RootStepOwn(h0, o, s, P, k, c1);
    }
  }

  /** A write to an array's `length` changes nothing. */
  lemma RootStepLength(h0: Store, o: Addr, s: Addr, P: set<Key>, k: Key, c1: Cell)
    requires o in h0 && RootMergedOn(h0, o, s, P, c1) && IsLengthOfArray(h0[o], k)
    ensures RootMergedOn(h0, o, s, P + {k}, SetProp(c1, k, Get(h0, Ref(s), k)))
  {
    assert Written(h0, o, s, P + {k}) == Written(h0, o, s, P);
  }

  /** Any other write stores the source's value at `k`. */
  lemma RootStepOwn(h0: Store, o: Addr, s: Addr, P: set<Key>, k: Key, c1: Cell)
    requires o in h0 && RootMergedOn(h0, o, s, P, c1) && !IsLengthOfArray(h0[o], k)
    requires k !in P && HasOwn(h0, Ref(s), k) && k !in RecKeys(h0, o, s)
    ensures RootMergedOn(h0, o, s, P + {k}, SetProp(c1, k, Get(h0, Ref(s), k)))
  {
    var c, v := h0[o], Get(h0, Ref(s), k);
    var c2 := SetProp(c1, k, v);
    var w, rec := Written(h0, o, s, P), RecKeys(h0, o, s);
    assert Written(h0, o, s, P + {k}) == w + {k};
    assert c2.own == c1.own[k := v];
    assert c2.own.Keys == c1.own.Keys + {k};
    forall k' | k' in w + {k} && k' !in rec ensures k' in c2.own && c2.own[k'] == Get(h0, Ref(s), k') {
      if k' != k {
        assert k' in w;
      }
    }
    forall k' | k' in c2.own && !(k' in w + {k} && k' !in rec) ensures k' in c.own && c2.own[k'] == c.own[k'] {
      assert k' != k;
    }
    if c.cls == "Array" {
      LenAfterStep(c.len, w, c1.len, k, c2.len);
    }
  }

  /** One more write at `k` leaves an array's length as `IsLenAfter` says. */
  lemma LenAfterStep(l0: nat, w: set<Key>, l: nat, k: Key, l': nat)
    requires IsLenAfter(l0, w, l) && k != Name("length")
    requires l' == if k.Index? && k.i >= l then k.i + 1 else l
    ensures IsLenAfter(l0, w + {k}, l')
  {
  }

  /** Descending into key `k` leaves the root container as `orig[k] = orig[k]` would. */
  lemma RootStepRec(h0: Store, o: Addr, s: Addr, P: set<Key>, k: Key, c1: Cell)
    requires WellFormed(h0) && o in h0 && s in h0 && RootMergedOn(h0, o, s, P, c1)
    requires k !in P && k in RecKeys(h0, o, s)
    ensures RootMergedOn(h0, o, s, P + {k}, c1)
    ensures k in c1.own && c1.own[k] == h0[o].own[k] && !IsLengthOfArray(c1, k)
  {
    RecChild(h0, o, s, k);
    assert CellOk(h0, h0[o]);
    assert Written(h0, o, s, P + {k}) == Written(h0, o, s, P) + {k};
  }

  /** Changing only containers in `X`, away from every subtree the merge
      has descended into, keeps what it established there. */
  lemma ChildrenKeep(h0: Store, hc: Store, hn: Store, o: Addr, s: Addr, d: nat, P: set<Key>, X: set<Addr>)
    requires WellFormed(h0) && o in h0 && s in h0 && d > 0
    requires MergedOn(h0, hc, o, s, d, P) && hc.Keys == h0.Keys
    requires forall k' :: k' in RecKeys(h0, o, s) && k' in P ==> FP(h0, Ref(ChildAddr(h0, o, k')), d - 1) !! X
    requires forall a :: a in hc && a !in X ==> a in hn && hn[a] == hc[a]
    ensures forall k' :: k' in RecKeys(h0, o, s) && k' in P ==>
              MergedOn(h0, hn, ChildAddr(h0, o, k'), ChildAddr(h0, s, k'), d - 1, ForInKeys(h0, ChildAddr(h0, s, k')))
  {
    forall k' | k' in RecKeys(h0, o, s) && k' in P
      ensures MergedOn(h0, hn, ChildAddr(h0, o, k'), ChildAddr(h0, s, k'), d - 1, ForInKeys(h0, ChildAddr(h0, s, k')))
    {
      var co, cs := ChildAddr(h0, o, k'), ChildAddr(h0, s, k');
      RecChild(h0, o, s, k');
      forall a | Touches(h0, co, cs, d - 1, ForInKeys(h0, cs), a) ensures a in hc && a in hn && hn[a] == hc[a] {
        TouchesReach(h0, co, cs, d - 1, ForInKeys(h0, cs), a);
        ReachesIn(h0, Ref(co), a, d - 1);
      }
      MergedOnFrameOut(h0, hc, hn, co, cs, d - 1, ForInKeys(h0, cs));
    }
  }

  /** Handling one more key keeps every container outside what the merge
      writes as it was, given that the step changes only such containers. */
  lemma FrameStep(h0: Store, hc: Store, hn: Store, o: Addr, s: Addr, d: nat, P: set<Key>, k: Key)
    requires UnchangedOutside(h0, hc, o, s, d, P) && hn.Keys == hc.Keys
    requires forall a :: a in hc && !Touches(h0, o, s, d, P + {k}, a) ==> hn[a] == hc[a]
    ensures hn.Keys == h0.Keys
    ensures forall a :: a in h0 && !Touches(h0, o, s, d, P + {k}, a) ==> hn[a] == h0[a]
  {
    forall a | a in h0 && !Touches(h0, o, s, d, P + {k}, a) ensures hn[a] == h0[a] {
      assert !Touches(h0, o, s, d, P, a);
    }
  }

  /** The containers written so far, after `orig[k] = obj[k]`. */
  lemma StepWriteOn(h0: Store, hc: Store, o: Addr, s: Addr, d: nat, P: set<Key>, k: Key)
    requires WellFormed(h0) && o in h0 && s in h0
    requires MergedOn(h0, hc, o, s, d, P) && hc.Keys == h0.Keys && k !in P
    requires HasOwn(h0, Ref(s), k) && k !in RecKeys(h0, o, s)
    requires d > 0 ==> Unshared(h0, Ref(o), d)
    ensures MergedOn(h0, Put(hc, Ref(o), k, Get(h0, Ref(s), k)), o, s, d, P + {k})
  {
    var hn := Put(hc, Ref(o), k, Get(h0, Ref(s), k));
    RootStepWrite(h0, o, s, P, k, hc[o]);
    if d > 0 {
      WriteChildren(h0, hc, hn, o, s, d, P, k);
    }
  }

  /** The write to `o` leaves the merged children of `o` as they were. */
  lemma WriteChildren(h0: Store, hc: Store, hn: Store, o: Addr, s: Addr, d: nat, P: set<Key>, k: Key)
    requires WellFormed(h0) && o in h0 && s in h0 && d > 0
    requires MergedOn(h0, hc, o, s, d, P) && hc.Keys == h0.Keys && k !in RecKeys(h0, o, s)
    requires Unshared(h0, Ref(o), d) && hn == Put(hc, Ref(o), k, Get(h0, Ref(s), k))
    ensures forall k' :: k' in RecKeys(h0, o, s) && k' in P + {k} ==>
              MergedOn(h0, hn, ChildAddr(h0, o, k'), ChildAddr(h0, s, k'), d - 1, ForInKeys(h0, ChildAddr(h0, s, k')))
  {
    forall k' | k' in RecKeys(h0, o, s) && k' in P ensures FP(h0, Ref(ChildAddr(h0, o, k')), d - 1) !! {o} {
      RecChild(h0, o, s, k');
    }
    ChildrenKeep(h0, hc, hn, o, s, d, P, {o});
    forall k' | k' in RecKeys(h0, o, s) && k' in P + {k}
      ensures MergedOn(h0, hn, ChildAddr(h0, o, k'), ChildAddr(h0, s, k'), d - 1, ForInKeys(h0, ChildAddr(h0, s, k')))
    {
      assert k' in P;
    }
  }

  /** After `orig[k] = obj[k]`, the merge state covers `k` as well. */
  lemma StepWrite(h0: Store, hc: Store, o: Addr, s: Addr, d: nat, P: set<Key>, k: Key)
    requires WellFormed(h0) && o in h0 && s in h0 && MergePre(h0, o, s, d)
    requires MergedUpTo(h0, hc, o, s, d, P) && k !in P
    requires HasOwn(h0, Ref(s), k) && k !in RecKeys(h0, o, s)
    ensures MergedUpTo(h0, Put(hc, Ref(o), k, Get(h0, Ref(s), k)), o, s, d, P + {k})
  {
    var hn := Put(hc, Ref(o), k, Get(h0, Ref(s), k));
    StepWriteOn(h0, hc, o, s, d, P, k);
    assert Touches(h0, o, s, d, P + {k}, o);
    FrameStep(h0, hc, hn, o, s, d, P, k);
  }

  /** Below a key not yet handled, the current store is still the old one. */
  lemma ChildAgreeNow(h0: Store, hc: Store, o: Addr, s: Addr, d: nat, P: set<Key>, k: Key)
    requires WellFormed(h0) && o in h0 && s in h0 && MergePre(h0, o, s, d)
    requires UnchangedOutside(h0, hc, o, s, d, P) && k !in P && k in RecKeys(h0, o, s)
    ensures d > 0
    ensures AgreeOn(h0, hc, FP(h0, Ref(ChildAddr(h0, o, k)), d - 1) + FP(h0, Ref(ChildAddr(h0, s, k)), d - 1))
  {
    RecChild(h0, o, s, k);
    var co, cs := ChildAddr(h0, o, k), ChildAddr(h0, s, k);
    FPChild(h0, s, k, d);
    assert AgreeOn(h0, hc, FP(h0, Ref(co), d - 1)) by {
      forall a | a in FP(h0, Ref(co), d - 1) ensures a in h0 && a in hc && h0[a] == hc[a] {
        NotTouchedSibling(h0, o, s, d, P, k, a);
      }
    }
    assert AgreeOn(h0, hc, FP(h0, Ref(cs), d - 1)) by {
      forall a | a in FP(h0, Ref(cs), d - 1) ensures a in h0 && a in hc && h0[a] == hc[a] {
        NotTouchedSource(h0, o, s, d, P, a);
      }
    }
  }

  /** The recursive call at key `k` meets the merge's shape conditions in the current store. */
  lemma ChildPre(h0: Store, hc: Store, o: Addr, s: Addr, d: nat, P: set<Key>, k: Key)
    requires WellFormed(h0) && o in h0 && s in h0 && MergePre(h0, o, s, d)
    requires UnchangedOutside(h0, hc, o, s, d, P) && k !in P && k in RecKeys(h0, o, s)
    ensures d > 0
    ensures MergePre(hc, ChildAddr(h0, o, k), ChildAddr(h0, s, k), d - 1)
  {
    ChildAgreeNow(h0, hc, o, s, d, P, k);
    RecChild(h0, o, s, k);
    var co, cs := ChildAddr(h0, o, k), ChildAddr(h0, s, k);
    FPChild(h0, o, k, d);
    FPChild(h0, s, k, d);
    FPAgree(h0, hc, Ref(co), d - 1);
    FPAgree(h0, hc, Ref(cs), d - 1);
  }

  /** What the recursive call at key `k` wrote, restated against the store
      the merge started from ... */
  lemma RecResultOn(h0: Store, hc: Store, hn: Store, o: Addr, s: Addr, d: nat, P: set<Key>, k: Key)
    requires WellFormed(h0) && o in h0 && s in h0 && MergePre(h0, o, s, d)
    requires UnchangedOutside(h0, hc, o, s, d, P) && k !in P && k in RecKeys(h0, o, s) && d > 0
    requires Merged(hc, hn, ChildAddr(h0, o, k), ChildAddr(h0, s, k), d - 1)
    ensures MergedOn(h0, hn, ChildAddr(h0, o, k), ChildAddr(h0, s, k), d - 1, ForInKeys(h0, ChildAddr(h0, s, k)))
  {
    ChildAgreeNow(h0, hc, o, s, d, P, k);
    RecChild(h0, o, s, k);
    var co, cs := ChildAddr(h0, o, k), ChildAddr(h0, s, k);
    FPChild(h0, s, k, d);
    assert cs in FP(h0, Ref(cs), d - 1);
    assert ForInKeys(hc, cs) == ForInKeys(h0, cs);
    MergedOnAgree(h0, hc, hn, co, cs, d - 1, ForInKeys(h0, cs));
  }

  /** ... and what it left alone: everything outside the subtree below `k`. */
  lemma RecResultFrame(h0: Store, hc: Store, hn: Store, o: Addr, s: Addr, d: nat, P: set<Key>, k: Key)
    requires WellFormed(h0) && o in h0 && s in h0 && MergePre(h0, o, s, d)
    requires UnchangedOutside(h0, hc, o, s, d, P) && k !in P && k in RecKeys(h0, o, s) && d > 0
    requires Merged(hc, hn, ChildAddr(h0, o, k), ChildAddr(h0, s, k), d - 1)
    ensures hn.Keys == hc.Keys
    ensures forall a :: a in hc && a !in FP(h0, Ref(ChildAddr(h0, o, k)), d - 1) ==> hn[a] == hc[a]
    ensures forall a :: a in hc && !Touches(h0, ChildAddr(h0, o, k), ChildAddr(h0, s, k), d - 1, ForInKeys(h0, ChildAddr(h0, s, k)), a) ==> hn[a] == hc[a]
  {
    ChildAgreeNow(h0, hc, o, s, d, P, k);
    RecChild(h0, o, s, k);
    var co, cs := ChildAddr(h0, o, k), ChildAddr(h0, s, k);
    FPChild(h0, s, k, d);
    assert cs in FP(h0, Ref(cs), d - 1);
    assert ForInKeys(hc, cs) == ForInKeys(h0, cs);
    forall a | a in hc && !Touches(h0, co, cs, d - 1, ForInKeys(h0, cs), a) ensures hn[a] == hc[a] {
      TouchesAgree(h0, hc, co, cs, d - 1, ForInKeys(h0, cs), a);
    }
    forall a | a in hc && a !in FP(h0, Ref(co), d - 1) ensures hn[a] == hc[a] {
      if Touches(h0, co, cs, d - 1, ForInKeys(h0, cs), a) {
        TouchesReach(h0, co, cs, d - 1, ForInKeys(h0, cs), a);
        assert false;
      }
    }
  }

  /** After descending into key `k` (and writing `orig[k]` back), the
      containers written so far hold what they should ... */
  lemma StepRecOn(h0: Store, hc: Store, hn: Store, o: Addr, s: Addr, d: nat, P: set<Key>, k: Key)
    requires WellFormed(h0) && o in h0 && s in h0 && MergePre(h0, o, s, d)
    requires MergedOn(h0, hc, o, s, d, P) && UnchangedOutside(h0, hc, o, s, d, P)
    requires k !in P && k in RecKeys(h0, o, s) && d > 0
    requires Merged(hc, hn, ChildAddr(h0, o, k), ChildAddr(h0, s, k), d - 1)
    ensures MergedOn(h0, hn, o, s, d, P + {k})
    ensures k in hn[o].own && hn[o].own[k] == Ref(ChildAddr(h0, o, k)) && !IsLengthOfArray(hn[o], k)
  {
    var co := ChildAddr(h0, o, k);
    RecChild(h0, o, s, k);
    RecResultFrame(h0, hc, hn, o, s, d, P, k);
    assert o !in FP(h0, Ref(co), d - 1);
    assert hn[o] == hc[o];
    RootStepRec(h0, o, s, P, k, hc[o]);
    RecResultOn(h0, hc, hn, o, s, d, P, k);
    SiblingsApart(h0, o, s, d, P, k);
    RecChildren(h0, hc, hn, o, s, d, P, k);
  }

  /** The children merged so far, and the one at `k`, are merged in the new store. */
  lemma RecChildren(h0: Store, hc: Store, hn: Store, o: Addr, s: Addr, d: nat, P: set<Key>, k: Key)
    requires WellFormed(h0) && o in h0 && s in h0 && d > 0
    requires MergedOn(h0, hc, o, s, d, P) && hc.Keys == h0.Keys
    requires forall k' :: k' in RecKeys(h0, o, s) && k' in P ==>
               FP(h0, Ref(ChildAddr(h0, o, k')), d - 1) !! FP(h0, Ref(ChildAddr(h0, o, k)), d - 1)
    requires forall a :: a in hc && a !in FP(h0, Ref(ChildAddr(h0, o, k)), d - 1) ==> a in hn && hn[a] == hc[a]
    requires MergedOn(h0, hn, ChildAddr(h0, o, k), ChildAddr(h0, s, k), d - 1, ForInKeys(h0, ChildAddr(h0, s, k)))
    ensures forall k' :: k' in RecKeys(h0, o, s) && k' in P + {k} ==>
              MergedOn(h0, hn, ChildAddr(h0, o, k'), ChildAddr(h0, s, k'), d - 1, ForInKeys(h0, ChildAddr(h0, s, k')))
  {
    ChildrenKeep(h0, hc, hn, o, s, d, P, FP(h0, Ref(ChildAddr(h0, o, k)), d - 1));
    forall k' | k' in RecKeys(h0, o, s) && k' in P + {k}
      ensures MergedOn(h0, hn, ChildAddr(h0, o, k'), ChildAddr(h0, s, k'), d - 1, ForInKeys(h0, ChildAddr(h0, s, k')))
    {
      if k' != k {
        assert k' in P;
      }
    }
  }

  /** The subtrees below the keys merged so far lie apart from the one below `k`. */
  lemma SiblingsApart(h0: Store, o: Addr, s: Addr, d: nat, P: set<Key>, k: Key)
    requires WellFormed(h0) && o in h0 && s in h0 && MergePre(h0, o, s, d)
    requires k !in P && k in RecKeys(h0, o, s) && d > 0
    ensures forall k' :: k' in RecKeys(h0, o, s) && k' in P ==>
              FP(h0, Ref(ChildAddr(h0, o, k')), d - 1) !! FP(h0, Ref(ChildAddr(h0, o, k)), d - 1)
  {
    forall k' | k' in RecKeys(h0, o, s) && k' in P
      ensures FP(h0, Ref(ChildAddr(h0, o, k')), d - 1) !! FP(h0, Ref(ChildAddr(h0, o, k)), d - 1)
    {
      RecChild(h0, o, s, k');
    }
  }

  /** ... and nothing else has changed. */
  lemma StepRec(h0: Store, hc: Store, hn: Store, o: Addr, s: Addr, d: nat, P: set<Key>, k: Key)
    requires WellFormed(h0) && o in h0 && s in h0 && MergePre(h0, o, s, d)
    requires MergedUpTo(h0, hc, o, s, d, P)
    requires k !in P && k in RecKeys(h0, o, s) && d > 0
    requires Merged(hc, hn, ChildAddr(h0, o, k), ChildAddr(h0, s, k), d - 1)
    ensures MergedUpTo(h0, hn, o, s, d, P + {k})
    ensures k in hn[o].own && hn[o].own[k] == Ref(ChildAddr(h0, o, k)) && !IsLengthOfArray(hn[o], k)
  {
    var co, cs := ChildAddr(h0, o, k), ChildAddr(h0, s, k);
    StepRecOn(h0, hc, hn, o, s, d, P, k);
    RecResultFrame(h0, hc, hn, o, s, d, P, k);
    forall a | a in hc && !Touches(h0, o, s, d, P + {k}, a) ensures hn[a] == hc[a] {
      assert !Touches(h0, co, cs, d - 1, ForInKeys(h0, cs), a);
    }
    FrameStep(h0, hc, hn, o, s, d, P, k);
  }

  /** The arguments of the recursive call meet its precondition. */
  lemma RecArgs(h0: Store, hc: Store, o: Addr, s: Addr, d: nat, P: set<Key>, k: Key)
    requires WellFormed(h0) && o in h0 && s in h0 && MergePre(h0, o, s, d)
    requires MergedUpTo(h0, hc, o, s, d, P) && k !in P && k in ForInKeys(h0, s)
    requires HasOwn(hc, Ref(s), k) && InstObj(hc, Get(hc, Ref(o), k)) && InstObj(hc, Get(hc, Ref(s), k))
    ensures d > 0 && k in RecKeys(h0, o, s)
    ensures Get(hc, Ref(o), k) == Ref(ChildAddr(h0, o, k)) && Get(hc, Ref(s), k) == Ref(ChildAddr(h0, s, k))
    ensures ChildAddr(h0, o, k) in hc && ChildAddr(h0, s, k) in hc
    ensures MergePre(hc, ChildAddr(h0, o, k), ChildAddr(h0, s, k), d - 1)
  {
    MergeCurrent(h0, hc, o, s, d, P, k);
    RecChild(h0, o, s, k);
    ChildPre(h0, hc, o, s, d, P, k);
  }

  /** One turn of the `for (key in obj)` loop of `$merge`: a key `obj` does
      not own is skipped, two objects are merged recursively, anything else is
      copied over. */
  method MergeKey(h: Heap, ghost h0: Store, o: Addr, s: Addr, ghost d: nat, ghost P: set<Key>, key: Key)
    requires h.Valid() && WellFormed(h0) && o in h0 && s in h0 && MergePre(h0, o, s, d)
    requires MergedUpTo(h0, h.cells, o, s, d, P) && key !in P && key in ForInKeys(h0, s)
    modifies h
    decreases d, 0
    ensures h.Valid() && MergedUpTo(h0, h.cells, o, s, d, P + {key})
  {
    MergeCurrent(h0, h.cells, o, s, d, P, key);
    if !HasOwn(h.cells, Ref(s), key) {
      StepSkip(h0, h.cells, o, s, d, P, key);
      return;
    }
    var cur := Get(h.cells, Ref(o), key);
    var val := Get(h.cells, Ref(s), key);
    if InstObj(h.cells, cur) && InstObj(h.cells, val) {
      ghost var hc := h.cells;
      RecArgs(h0, hc, o, s, d, P, key);
      var sub := Merge(h, cur, val, d - 1);
      StepRec(h0, hc, h.cells, o, s, d, P, key);
      PutSame(h.cells, o, key);
      var _ := h.Assign(Ref(o), key, sub.value);
    } else {
      GetIn(h.cells, Ref(s), key);
      StepWrite(h0, h.cells, o, s, d, P, key);
      var _ := h.Assign(Ref(o), key, val);
    }
  }

  /** The `for (key in obj)` loop of `$merge`, over every enumerable key. */
  method MergeAll(h: Heap, o: Addr, s: Addr, ghost d: nat)
    requires h.Valid() && o in h.cells && s in h.cells && MergePre(h.cells, o, s, d)
    modifies h
    decreases d, 1
    ensures h.Valid() && Merged(old(h.cells), h.cells, o, s, d)
  {
    ghost var h0 := h.cells;
    var keys := EnumKeys(h.cells[s], false);
    var remaining := keys;
    ghost var P: set<Key> := {};
    MergeInit(h0, o, s, d);
    while remaining != {}
      invariant remaining <= keys && P == keys - remaining
      invariant h.Valid()
      invariant MergedUpTo(h0, h.cells, o, s, d, P)
      decreases remaining
    {
      var key :| key in remaining;
      MergeKey(h, h0, o, s, d, P, key);
      remaining, P := remaining - {key}, P + {key};
    }
    MergeEnd(h0, h.cells, o, s, d, P, remaining);
  }

  /** `$merge(orig, obj)`. A falsy argument gives `null`; an argument that is
      not `instanceof Object` throws; otherwise `obj` is merged into `orig` in
      place and `orig` is returned. `d` bounds the depth of `obj`. */
  method Merge(h: Heap, orig: Value, obj: Value, ghost d: nat) returns (r: Result<Value>)
    requires h.Valid() && ValueIn(h.cells, orig) && ValueIn(h.cells, obj)
    requires InstObj(h.cells, orig) && InstObj(h.cells, obj) ==> MergePre(h.cells, orig.addr, obj.addr, d)
    modifies h
    decreases d, 2
    ensures h.Valid()
    ensures !Truthy(orig) || !Truthy(obj) ==> r == Ok(Null)
    ensures Truthy(orig) && Truthy(obj) && !(InstObj(old(h.cells), orig) && InstObj(old(h.cells), obj)) ==>
              r == Err(NotMergeable)
    ensures !(InstObj(old(h.cells), orig) && InstObj(old(h.cells), obj)) ==> h.cells == old(h.cells)
    ensures InstObj(old(h.cells), orig) && InstObj(old(h.cells), obj) ==>
              r == Ok(orig) && Merged(old(h.cells), h.cells, orig.addr, obj.addr, d)
  {
    if !Truthy(orig) || !Truthy(obj) {
      return Ok(Null);
    }
    if !InstObj(h.cells, orig) || !InstObj(h.cells, obj) {
      return Err(NotMergeable);
    }
    MergeAll(h, orig.addr, obj.addr, d);
    return Ok(orig);
  }
}
