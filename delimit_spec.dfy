/** The walk `$delimit` makes down a dotted path, as a function of the store.

  At each segment but the last, the walk reads `lvl[key]`; in set mode it
  first stores `lvl[key] = lvl[key] !== undefined ? lvl[key] : {}`, and in
  both modes it then moves on to `lvl[key] || {}`. A falsy value is replaced
  by a fresh empty object that nothing refers to. Fresh objects take the
  addresses `next`, `next + 1`, ... in order, as the heap hands them out.
 */
module PathSpec {
  import opened Keys
  import opened Heaps
  import opened Graphs

  /** Where the walk ends: the store, the next free address and `lvl`. */
  datatype Walked = Walked(h: Store, next: Addr, lvl: Value)

  /** No container sits at `next` or above. */
  predicate FreshFrom(h: Store, next: Addr) {
    forall a :: a in h ==> a < next
  }

  /** The write half of a turn at segment `k` when `writes` (`val !== undefined`):
      `lvl[k] = lvl[k]`, or `lvl[k] = {}` when `lvl[k]` is undefined. */
  function Touch(h: Store, next: Addr, lvl: Value, k: Key, writes: bool): Walked {
    var cur := Get(h, lvl, k);
    if !writes then Walked(h, next, lvl)
    else if cur != Undefined then Walked(Put(h, lvl, k, cur), next, lvl)
    else Walked(Put(h[next := EmptyObject()], lvl, k, Ref(next)), next + 1, lvl)
  }

  /** The read half: `lvl = lvl[k] || {}`. */
  function Descend(h: Store, next: Addr, lvl: Value, k: Key): Walked {
    var x := Get(h, lvl, k);
    if Truthy(x) then Walked(h, next, x) else Walked(h[next := EmptyObject()], next + 1, Ref(next))
  }

  /** One turn of the loop of `$delimit`, at segment `k`. */
  function Step(h: Store, next: Addr, lvl: Value, k: Key, writes: bool): Walked {
    var t := Touch(h, next, lvl, k, writes);
    Descend(t.h, t.next, lvl, k)
  }

  /** The loop of `$delimit` over the segments `ks` (all but the last). */
  function Walk(h: Store, next: Addr, lvl: Value, ks: seq<Key>, writes: bool): Result<Walked>
    decreases |ks|
  {
    if ks == [] then Ok(Walked(h, next, lvl))
    else if IsNullish(lvl) then Err(NoProperties)
    else
      var w := Step(h, next, lvl, ks[0], writes);
      Walk(w.h, w.next, w.lvl, ks[1..], writes)
  }

  /** `return lvl[last]` at the end of the walk. */
  function ReadLast(r: Result<Walked>, last: Key): Result<Value> {
    match r
    case Err(e) => Err(e)
    case Ok(w) => if IsNullish(w.lvl) then Err(NoProperties) else Ok(Get(w.h, w.lvl, last))
  }

  /** The value a dotted path denotes, read without writing anything: a
      falsy value on the way makes the rest of the path `undefined`, and a
      path that starts at `undefined` or `null` throws. */
  function Lookup(h: Store, v: Value, ks: seq<Key>): Result<Value>
    requires |ks| > 0
    decreases |ks|
  {
    if IsNullish(v) then Err(NoProperties)
    else if |ks| == 1 then Ok(Get(h, v, ks[0]))
    else
      var x := Get(h, v, ks[0]);
      if Truthy(x) then Lookup(h, x, ks[1..]) else Ok(Undefined)
  }

  lemma DropSnoc(ks: seq<Key>, last: Key)
    requires ks != []
    ensures (ks + [last])[0] == ks[0] && (ks + [last])[1..] == ks[1..] + [last]
    ensures ks + [last] == [ks[0]] + (ks[1..] + [last])
  {
  }

  /** A walk that starts anywhere but at `undefined` or `null` cannot throw,
      and it ends at a value that is neither. */
  lemma {:induction false} WalkNoThrow(h: Store, next: Addr, v: Value, ks: seq<Key>, writes: bool)
    requires !IsNullish(v)
    ensures Walk(h, next, v, ks, writes).Ok? && !IsNullish(Walk(h, next, v, ks, writes).value.lvl)
    decreases |ks|
  {
    if ks != [] {
      var w := Step(h, next, v, ks[0], writes);
      WalkNoThrow(w.h, w.next, w.lvl, ks[1..], writes);
    }
  }

  /** Reading a path from a fresh empty object gives `undefined`. */
  lemma {:induction false} FreshRead(h: Store, next: Addr, a: Addr, ks: seq<Key>, last: Key)
    requires FreshFrom(h, next) && a in h && h[a] == EmptyObject()
    ensures ReadLast(Walk(h, next, Ref(a), ks, false), last) == Ok(Undefined)
    decreases |ks|
  {
    if ks != [] {
      var h1 := h[next := EmptyObject()];
      assert Get(h, Ref(a), ks[0]) == Undefined;
      FreshRead(h1, next + 1, next, ks[1..], last);
    }
  }

  /** In get mode the walk reads exactly what `Lookup` reads: the garbage
      objects it allocates change nothing that can be observed. */
  lemma {:induction false} GetModeLookup(h: Store, next: Addr, v: Value, ks: seq<Key>, last: Key)
    requires FreshFrom(h, next)
    ensures ReadLast(Walk(h, next, v, ks, false), last) == Lookup(h, v, ks + [last])
    decreases |ks|
  {
    if ks != [] && !IsNullish(v) {
      var x := Get(h, v, ks[0]);
      DropSnoc(ks, last);
      if Truthy(x) {
        GetModeLookup(h, next, x, ks[1..], last);
      } else {
        FreshRead(h[next := EmptyObject()], next + 1, next, ks[1..], last);
      }
    }
  }

  /** In get mode the walk changes no container: it only adds fresh ones. */
  lemma {:induction false} ReadOnlyWalk(h: Store, next: Addr, v: Value, ks: seq<Key>)
    requires FreshFrom(h, next)
    ensures Walk(h, next, v, ks, false).Ok? ==>
              var w := Walk(h, next, v, ks, false).value;
              h.Keys <= w.h.Keys && forall a :: a in h ==> w.h[a] == h[a]
    decreases |ks|
  {
    if ks != [] && !IsNullish(v) {
      var w := Step(h, next, v, ks[0], false);
      assert FreshFrom(w.h, w.next) && h.Keys <= w.h.Keys && forall a :: a in h ==> w.h[a] == h[a];
      ReadOnlyWalk(w.h, w.next, w.lvl, ks[1..]);
    }
  }

  /** The containers a path runs through in `h`, in the store as it is. */
  function PathAddrs(h: Store, v: Value, ks: seq<Key>): set<Addr>
    decreases |ks|
  {
    if ks == [] || !(v.Ref? && v.addr in h) then {}
    else {v.addr} + (if |ks| == 1 then {} else PathAddrs(h, Get(h, v, ks[0]), ks[1..]))
  }

  /** The path can be set: it starts at a container, every segment on the
      way holds a container or is missing, no container is met twice, and no
      segment is an array's `length`. */
  predicate Settable(h: Store, v: Value, ks: seq<Key>)
    requires |ks| > 0
    decreases |ks|
  {
    && v.Ref? && v.addr in h && !IsLengthOfArray(h[v.addr], ks[0])
    && (|ks| > 1 ==>
          var x := Get(h, v, ks[0]);
          x.Undefined? || (x.Ref? && v.addr !in PathAddrs(h, x, ks[1..]) && Settable(h, x, ks[1..])))
  }

  /** Paths look only at the containers they run through. */
  lemma {:induction false} PathAgree(h: Store, h1: Store, v: Value, ks: seq<Key>)
    requires WellFormed(h) && ValueIn(h, v) && h.Keys <= h1.Keys
    requires AgreeOn(h, h1, PathAddrs(h, v, ks))
    ensures PathAddrs(h1, v, ks) == PathAddrs(h, v, ks)
    ensures |ks| > 0 ==> Settable(h1, v, ks) == Settable(h, v, ks)
    decreases |ks|
  {
    if ks != [] && v.Ref? && v.addr in h {
      assert v.addr in PathAddrs(h, v, ks);
      if |ks| > 1 {
        GetIn(h, v, ks[0]);
        PathAgree(h, h1, Get(h, v, ks[0]), ks[1..]);
      }
    }
  }

  lemma {:induction false} PathAddrsIn(h: Store, v: Value, ks: seq<Key>, a: Addr)
    requires a in PathAddrs(h, v, ks)
    ensures a in h
    decreases |ks|
  {
    if a != v.addr {
      PathAddrsIn(h, Get(h, v, ks[0]), ks[1..], a);
    }
  }

  /** A fresh empty object at `a` can be set along any path. */
  lemma FreshSettable(h: Store, a: Addr, ks: seq<Key>)
    requires |ks| > 0 && a in h && h[a] == EmptyObject()
    ensures Settable(h, Ref(a), ks) && PathAddrs(h, Ref(a), ks) == {a}
  {
    assert Get(h, Ref(a), ks[0]) == Undefined;
  }

  /** Setting the path `ks + [last]` of `v`: the walk succeeds, ends at a
      container whose `last` is not an array's `length`, and keeps the store
      well formed. */
  predicate SetWalks(h: Store, next: Addr, v: Value, ks: seq<Key>, last: Key) {
    Walk(h, next, v, ks, true).Ok? &&
    var w := Walk(h, next, v, ks, true).value;
    && w.lvl.Ref? && w.lvl.addr in w.h && !IsLengthOfArray(w.h[w.lvl.addr], last)
    && h.Keys <= w.h.Keys && WellFormed(w.h) && FreshFrom(w.h, w.next)
  }

  /** The store once the walk has run and `lvl[last] = val` has been done. */
  function SetStore(h: Store, next: Addr, v: Value, ks: seq<Key>, last: Key, val: Value): Store
    requires Walk(h, next, v, ks, true).Ok?
  {
    var w := Walk(h, next, v, ks, true).value;
    Put(w.h, w.lvl, last, val)
  }

  /** ... after which the path reads back `val` ... */
  predicate SetReads(h: Store, next: Addr, v: Value, ks: seq<Key>, last: Key, val: Value) {
    SetWalks(h, next, v, ks, last) && Lookup(SetStore(h, next, v, ks, last, val), v, ks + [last]) == Ok(val)
  }

  /** ... and every old container off the path is as it was. */
  predicate SetFrame(h: Store, next: Addr, v: Value, ks: seq<Key>, last: Key, val: Value) {
    SetWalks(h, next, v, ks, last) &&
    forall a :: a in h && a !in PathAddrs(h, v, ks + [last]) ==> SetStore(h, next, v, ks, last, val)[a] == h[a]
  }

  /** The path has one segment: the write is the last step. */
  lemma SetLast(h: Store, next: Addr, v: Value, last: Key, val: Value)
    requires WellFormed(h) && FreshFrom(h, next) && ValueIn(h, val)
    requires Settable(h, v, [] + [last])
    ensures SetReads(h, next, v, [], last, val) && SetFrame(h, next, v, [], last, val)
  {
    assert [] + [last] == [last];
    PutProperties(h, v, last, val);
  }

  /** A segment that holds a container is stored back and the walk moves into it. */
  lemma StepKeep(h: Store, next: Addr, v: Value, k: Key)
    requires WellFormed(h) && v.Ref? && v.addr in h && !IsLengthOfArray(h[v.addr], k) && Get(h, v, k).Ref?
    ensures Step(h, next, v, k, true) == Walked(Put(h, v, k, Get(h, v, k)), next, Get(h, v, k))
  {
    GetIn(h, v, k);
    PutProperties(h, v, k, Get(h, v, k));
  }

  /** A missing segment gets a fresh `{}`, and the walk moves into it. */
  lemma StepFill(h: Store, next: Addr, v: Value, k: Key)
    requires FreshFrom(h, next) && v.Ref? && v.addr in h && !IsLengthOfArray(h[v.addr], k) && Get(h, v, k) == Undefined
    ensures Step(h, next, v, k, true) == Walked(Put(h[next := EmptyObject()], v, k, Ref(next)), next + 1, Ref(next))
  {
  }

  lemma WalksStep(h: Store, h1: Store, next: Addr, n1: Addr, v: Value, x: Value, ks: seq<Key>, last: Key)
    requires ks != [] && h.Keys <= h1.Keys
    requires Walk(h, next, v, ks, true) == Walk(h1, n1, x, ks[1..], true)
    requires SetWalks(h1, n1, x, ks[1..], last)
    ensures SetWalks(h, next, v, ks, last)
  {
  }

  /** A write below `v` that does not pass through `v` leaves `v[k]` alone. */
  lemma RootKept(h1: Store, n1: Addr, x: Value, ks: seq<Key>, last: Key, val: Value, v: Value, k: Key)
    requires SetFrame(h1, n1, x, ks, last, val) && v.Ref? && v.addr in h1
    requires v.addr !in PathAddrs(h1, x, ks + [last]) && Get(h1, v, k) == x
    ensures Get(SetStore(h1, n1, x, ks, last, val), v, k) == x
  {
    assert SetStore(h1, n1, x, ks, last, val)[v.addr] == h1[v.addr];
  }

  lemma StoreStep(h: Store, h1: Store, next: Addr, n1: Addr, v: Value, x: Value, ks: seq<Key>, last: Key, val: Value)
    requires ks != [] && Walk(h, next, v, ks, true) == Walk(h1, n1, x, ks[1..], true)
    requires Walk(h1, n1, x, ks[1..], true).Ok?
    ensures Walk(h, next, v, ks, true).Ok?
    ensures SetStore(h, next, v, ks, last, val) == SetStore(h1, n1, x, ks[1..], last, val)
  {
  }

  lemma ReadsStep(h: Store, h1: Store, next: Addr, n1: Addr, v: Value, x: Value, ks: seq<Key>, last: Key, val: Value)
    requires ks != [] && !IsNullish(v) && Truthy(x)
    requires SetReads(h1, n1, x, ks[1..], last, val) && SetWalks(h, next, v, ks, last)
    requires SetStore(h, next, v, ks, last, val) == SetStore(h1, n1, x, ks[1..], last, val)
    requires Get(SetStore(h1, n1, x, ks[1..], last, val), v, ks[0]) == x
    ensures SetReads(h, next, v, ks, last, val)
  {
    var H := SetStore(h1, n1, x, ks[1..], last, val);
    LookupStep(H, v, x, ks + [last]);
    DropSnoc(ks, last);
  }

  /** A lookup through a truthy value goes on from there. */
  lemma LookupStep(h: Store, v: Value, x: Value, ks: seq<Key>)
    requires |ks| > 1 && !IsNullish(v) && Truthy(x) && Get(h, v, ks[0]) == x
    ensures Lookup(h, v, ks) == Lookup(h, x, ks[1..])
  {
  }

  lemma FrameStep(h: Store, h1: Store, next: Addr, n1: Addr, v: Value, x: Value, ks: seq<Key>, last: Key, val: Value)
    requires ks != [] && v.Ref?
    requires SetFrame(h1, n1, x, ks[1..], last, val) && SetWalks(h, next, v, ks, last)
    requires SetStore(h, next, v, ks, last, val) == SetStore(h1, n1, x, ks[1..], last, val)
    requires forall a :: a in h && a != v.addr ==> a in h1 && h1[a] == h[a]
    requires v.addr in PathAddrs(h, v, ks + [last])
    requires forall a :: a in h && a in PathAddrs(h1, x, ks[1..] + [last]) ==> a in PathAddrs(h, v, ks + [last])
    ensures SetFrame(h, next, v, ks, last, val)
  {
    var H := SetStore(h, next, v, ks, last, val);
    forall a | a in h && a !in PathAddrs(h, v, ks + [last]) ensures H[a] == h[a] {
      assert a != v.addr && a in h1 && a !in PathAddrs(h1, x, ks[1..] + [last]);
    }
  }

  /** The walk is one turn followed by the walk over the remaining segments. */
  lemma WalkUnfold(h: Store, next: Addr, v: Value, ks: seq<Key>, writes: bool)
    requires ks != [] && !IsNullish(v)
    ensures var w := Step(h, next, v, ks[0], writes);
            Walk(h, next, v, ks, writes) == Walk(w.h, w.next, w.lvl, ks[1..], writes)
  {
  }

  /** The turn at a segment that holds a container stores it back and moves
      into it, and the remaining path `rest` can be set from there. */
  lemma KeepStore(h: Store, next: Addr, v: Value, k: Key, rest: seq<Key>)
    requires WellFormed(h) && FreshFrom(h, next) && |rest| > 0
    requires Settable(h, v, [k] + rest) && Get(h, v, k) != Undefined
    ensures var w := Step(h, next, v, k, true);
            && w.next == next && w.lvl == Get(h, v, k) && w.lvl.Ref?
            && WellFormed(w.h) && FreshFrom(w.h, next) && w.h.Keys == h.Keys
            && Get(w.h, v, k) == w.lvl
            && Settable(w.h, w.lvl, rest)
            && PathAddrs(w.h, w.lvl, rest) == PathAddrs(h, w.lvl, rest)
            && PathAddrs(h, v, [k] + rest) == {v.addr} + PathAddrs(h, w.lvl, rest)
            && v.addr !in PathAddrs(h, w.lvl, rest)
            && (forall a :: a in h && a != v.addr ==> w.h[a] == h[a])
  {
    assert ([k] + rest)[0] == k && ([k] + rest)[1..] == rest;
    var x0 := Get(h, v, k);
    GetIn(h, v, k);
    var h1 := Put(h, v, k, x0);
    PutProperties(h, v, k, x0);
    StepKeep(h, next, v, k);
    assert x0.Ref? && v.addr !in PathAddrs(h, x0, rest) && Settable(h, x0, rest);
    assert AgreeOn(h, h1, PathAddrs(h, x0, rest)) by {
      forall a | a in PathAddrs(h, x0, rest) ensures a in h && a in h1 && h[a] == h1[a] {
        PathAddrsIn(h, x0, rest, a);
      }
    }
    PathAgree(h, h1, x0, rest);
  }

  /** Adding an empty object keeps a store well formed. */
  lemma GrowEmpty(h: Store, next: Addr)
    requires WellFormed(h) && FreshFrom(h, next)
    ensures WellFormed(h[next := EmptyObject()]) && FreshFrom(h[next := EmptyObject()], next + 1)
  {
    var h' := h[next := EmptyObject()];
    forall a | a in h' ensures CellOk(h', h'[a]) {
      if a != next { CellOkGrow(h, h', h[a]); }
    }
  }

  /** The turn at a missing segment stores a fresh `{}` at `v[k]` and moves
      into it, and the remaining path `rest` can be set from there. */
  lemma FillStore(h: Store, next: Addr, v: Value, k: Key, rest: seq<Key>)
    requires WellFormed(h) && FreshFrom(h, next) && |rest| > 0
    requires Settable(h, v, [k] + rest) && Get(h, v, k) == Undefined
    ensures var w := Step(h, next, v, k, true);
            && w.next == next + 1 && w.lvl == Ref(next)
            && WellFormed(w.h) && FreshFrom(w.h, next + 1) && w.h.Keys == h.Keys + {next}
            && Get(w.h, v, k) == Ref(next)
            && Settable(w.h, Ref(next), rest) && PathAddrs(w.h, Ref(next), rest) == {next}
            && v.addr in PathAddrs(h, v, [k] + rest)
            && (forall a :: a in h && a != v.addr ==> w.h[a] == h[a])
  {
    assert ([k] + rest)[0] == k;
    var h' := h[next := EmptyObject()];
    GrowEmpty(h, next);
    PutProperties(h', v, k, Ref(next));
    StepFill(h, next, v, k);
    FreshSettable(Step(h, next, v, k, true).h, next, rest);
  }

  /** Setting a path and then reading it back gives the value set, and the
      only old containers the walk and the final store change are those on
      the path. */
  lemma {:induction false} SetThenGet(h: Store, next: Addr, v: Value, ks: seq<Key>, last: Key, val: Value)
    requires WellFormed(h) && FreshFrom(h, next) && ValueIn(h, val)
    requires Settable(h, v, ks + [last])
    ensures SetReads(h, next, v, ks, last, val) && SetFrame(h, next, v, ks, last, val)
    decreases |ks|
  {
    if ks == [] {
      SetLast(h, next, v, last, val);
    } else {
      var k := ks[0];
      var rest := ks[1..] + [last];
      DropSnoc(ks, last);
      var w1 := Step(h, next, v, k, true);
      if Get(h, v, k) != Undefined {
        KeepStore(h, next, v, k, rest);
      } else {
        FillStore(h, next, v, k, rest);
      }
      SetThenGet(w1.h, w1.next, w1.lvl, ks[1..], last, val);
      SetCombine(h, next, v, ks, last, val);
    }
  }

  /** One turn of `SetThenGet`: what holds after the first segment carries
      over to the whole path. */
  lemma SetCombine(h: Store, next: Addr, v: Value, ks: seq<Key>, last: Key, val: Value)
    requires WellFormed(h) && FreshFrom(h, next) && ValueIn(h, val)
    requires ks != [] && Settable(h, v, ks + [last])
    requires var w1 := Step(h, next, v, ks[0], true);
             SetReads(w1.h, w1.next, w1.lvl, ks[1..], last, val) && SetFrame(w1.h, w1.next, w1.lvl, ks[1..], last, val)
    ensures SetReads(h, next, v, ks, last, val) && SetFrame(h, next, v, ks, last, val)
  {
    var k := ks[0];
    var rest := ks[1..] + [last];
    DropSnoc(ks, last);
    var w1 := Step(h, next, v, k, true);
    var h1 := w1.h;
    WalkUnfold(h, next, v, ks, true);
    if Get(h, v, k) != Undefined {
      KeepStore(h, next, v, k, rest);
    } else {
      FillStore(h, next, v, k, rest);
    }
    WalksStep(h, h1, next, w1.next, v, w1.lvl, ks, last);
    StoreStep(h, h1, next, w1.next, v, w1.lvl, ks, last, val);
    assert SetFrame(h, next, v, ks, last, val) by {
      FrameStep(h, h1, next, w1.next, v, w1.lvl, ks, last, val);
    }
    RootKept(h1, w1.next, w1.lvl, ks[1..], last, val, v, k);
    ReadsStep(h, h1, next, w1.next, v, w1.lvl, ks, last, val);
  }
}
