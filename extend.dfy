/** `$extend`: a single property write, or a shallow copy of a source's own
    properties built from single writes. */
module Extender {
  import opened Keys
  import opened Heaps
  import opened Classifier
  import opened Iterator

  datatype Pair = Pair(key: Key, value: Value)

  /** The store after one `obj[k] = v` per pair, in order: what a sequence of
      three-argument `$extend` calls leaves behind. */
  function CopyAll(h: Store, obj: Value, ps: seq<Pair>): Store
    decreases |ps|
  {
    if ps == [] then h else CopyAll(Put(h, obj, ps[0].key, ps[0].value), obj, ps[1..])
  }

  function PairKeys(ps: seq<Pair>): set<Key> {
    set j | 0 <= j < |ps| :: ps[j].key
  }

  predicate DistinctKeys(ps: seq<Pair>) {
    forall i, j :: 0 <= i < j < |ps| ==> ps[i].key != ps[j].key
  }

  /** The pairs are written in turn: each written key ends up holding its
      value, every other key and every other container keeps its value. An
      array's `length` is left out of the statement (index writes raise it). */
  lemma {:induction false} CopyAllEffect(h: Store, o: Addr, ps: seq<Pair>)
    requires WellFormed(h) && o in h && DistinctKeys(ps)
    requires forall j :: 0 <= j < |ps| ==> ValueIn(h, ps[j].value)
    ensures WellFormed(CopyAll(h, Ref(o), ps)) && CopyAll(h, Ref(o), ps).Keys == h.Keys
    ensures forall a :: a in h && a != o ==> CopyAll(h, Ref(o), ps)[a] == h[a]
    ensures forall j :: 0 <= j < |ps| && !IsLengthOfArray(h[o], ps[j].key) ==>
              Get(CopyAll(h, Ref(o), ps), Ref(o), ps[j].key) == ps[j].value
    ensures forall k :: k !in PairKeys(ps) && !IsLengthOfArray(h[o], k) ==>
              Get(CopyAll(h, Ref(o), ps), Ref(o), k) == Get(h, Ref(o), k)
    decreases |ps|
  {
    if ps != [] {
      var h1 := Put(h, Ref(o), ps[0].key, ps[0].value);
      PutProperties(h, Ref(o), ps[0].key, ps[0].value);
      assert h1[o].cls == h[o].cls;
      forall j | 0 <= j < |ps[1..]| ensures ValueIn(h1, ps[1..][j].value) {
        assert ps[1..][j] == ps[j + 1];
      }
      assert DistinctKeys(ps[1..]) by {
        forall i, j | 0 <= i < j < |ps[1..]| ensures ps[1..][i].key != ps[1..][j].key {
          assert ps[1..][i] == ps[i + 1] && ps[1..][j] == ps[j + 1];
        }
      }
      CopyAllEffect(h1, o, ps[1..]);
      assert CopyAll(h, Ref(o), ps) == CopyAll(h1, Ref(o), ps[1..]);
      forall j | 0 <= j < |ps| && !IsLengthOfArray(h[o], ps[j].key)
        ensures Get(CopyAll(h, Ref(o), ps), Ref(o), ps[j].key) == ps[j].value
      {
        if j > 0 {
          assert ps[1..][j - 1] == ps[j];
        } else {
          assert ps[0].key !in PairKeys(ps[1..]) by {
            forall i | 0 <= i < |ps[1..]| ensures ps[1..][i].key != ps[0].key {
              assert ps[1..][i] == ps[i + 1];
            }
          }
        }
      }
      forall k | k !in PairKeys(ps) && !IsLengthOfArray(h[o], k)
        ensures Get(CopyAll(h, Ref(o), ps), Ref(o), k) == Get(h, Ref(o), k)
      {
        assert k != ps[0].key;
        assert k !in PairKeys(ps[1..]) by {
          forall i | 0 <= i < |ps[1..]| ensures ps[1..][i].key != k {
            assert ps[1..][i] == ps[i + 1];
          }
        }
      }
    }
  }

  /** Three-argument `$extend(obj, key, val)`: `obj[key] = val`. */
  method Extend3(h: Heap, obj: Value, key: Key, val: Value) returns (r: Result<()>)
    requires h.Valid() && ValueIn(h.cells, val)
    modifies h
    ensures h.Valid()
    ensures r.Err? <==> IsNullish(obj)
    ensures r.Err? ==> r.error == NoProperties
    ensures h.cells == Put(old(h.cells), obj, key, val)
  {
    r := h.Assign(obj, key, val);
  }

  /** The value the copying callback receives for key `k` of `src`. */
  function SourceValue(h: Store, src: Value, k: Key, itemAt: nat -> Value): Value {
    if IsIndexedType(TypeOf(h, src)) && k.Index? then ElementAt(h, src, k.i, itemAt) else Get(h, src, k)
  }

  /** The keys two-argument `$extend` copies: the iterated keys `src` owns. */
  function OwnIterKeys(h: Store, src: Value): set<Key> {
    if IsIndexedType(TypeOf(h, src)) then
      set i | 0 <= i < LengthOf(h, src) && HasOwn(h, src, Index(i)) :: Index(i)
    else if IsKeyedType(TypeOf(h, src)) && src.Ref? && src.addr in h then h[src.addr].own.Keys
    else {}
  }

  /** `ps` lists each copied key of `src` once, with the value the callback sees. */
  predicate CopiesOf(h: Store, src: Value, itemAt: nat -> Value, ps: seq<Pair>) {
    && DistinctKeys(ps)
    && PairKeys(ps) == OwnIterKeys(h, src)
    && (forall j :: 0 <= j < |ps| ==> ps[j].value == SourceValue(h, src, ps[j].key, itemAt))
  }

  /** The callback two-argument `$extend` passes to `$each`: it returns undefined. */
  function Silent(v: Value, k: Key): Value {
    Undefined
  }

  /** The visits whose key `src` owns (`if (!key.hasOwnProperty(k)) return;`), as pairs. */
  function OwnPairs(h: Store, src: Value, vs: seq<Visit>): seq<Pair> {
    if vs == [] then []
    else
      var last := vs[|vs| - 1];
      OwnPairs(h, src, vs[..|vs| - 1]) + (if HasOwn(h, src, last.key) then [Pair(last.key, last.value)] else [])
  }

  /** Filtering keeps the keys distinct, keeps exactly the owned keys, and
      keeps each pair's value. */
  lemma {:induction false} OwnPairsFacts(h: Store, src: Value, vs: seq<Visit>)
    requires forall i, j :: 0 <= i < j < |vs| ==> vs[i].key != vs[j].key
    ensures DistinctKeys(OwnPairs(h, src, vs))
    ensures forall k :: k in PairKeys(OwnPairs(h, src, vs)) <==> k in KeysOf(vs) && HasOwn(h, src, k)
    ensures forall p :: p in OwnPairs(h, src, vs) ==> Visit(p.value, p.key) in vs
  {
    if vs != [] {
      var init := vs[..|vs| - 1];
      var last := vs[|vs| - 1];
      OwnPairsFacts(h, src, init);
      KeysOfMembers(init);
      var ps := OwnPairs(h, src, init);
      forall i | 0 <= i < |init| ensures init[i].key != last.key {
        assert init[i] == vs[i];
      }
      assert last.key !in KeysOf(init);
      if HasOwn(h, src, last.key) {
        var p := Pair(last.key, last.value);
        assert OwnPairs(h, src, vs) == ps + [p];
        assert PairKeys(ps + [p]) == PairKeys(ps) + {p.key} by {
          forall k | k in PairKeys(ps + [p]) ensures k in PairKeys(ps) + {p.key} {
            var j :| 0 <= j < |ps + [p]| && (ps + [p])[j].key == k;
            if j < |ps| { assert ps[j].key == k; }
          }
          forall k | k in PairKeys(ps) + {p.key} ensures k in PairKeys(ps + [p]) {
            if k == p.key {
              assert (ps + [p])[|ps|].key == k;
            } else {
              var j :| 0 <= j < |ps| && ps[j].key == k;
              assert (ps + [p])[j].key == k;
            }
          }
        }
        forall q | q in ps + [p] ensures Visit(q.value, q.key) in vs {
          if q in ps {
            assert Visit(q.value, q.key) in init;
          } else {
            assert vs[|vs| - 1] == Visit(q.value, q.key);
          }
        }
      } else {
        assert OwnPairs(h, src, vs) == ps;
        forall q | q in ps ensures Visit(q.value, q.key) in vs {
          assert Visit(q.value, q.key) in init;
        }
      }
    }
  }

  /** The pairs kept from a run's prefix are a prefix of those kept from the whole run. */
  lemma {:induction false} OwnPairsPrefix(h: Store, src: Value, vs: seq<Visit>, n: nat)
    requires n <= |vs|
    ensures OwnPairs(h, src, vs[..n]) <= OwnPairs(h, src, vs)
    decreases |vs|
  {
    if n < |vs| {
      var init := vs[..|vs| - 1];
      assert vs[..n] == init[..n];
      OwnPairsPrefix(h, src, init, n);
    } else {
      assert vs[..n] == vs;
    }
  }

  /** Appending one pair writes it last. */
  lemma {:induction false} CopyAllSnoc(h: Store, obj: Value, ps: seq<Pair>, p: Pair)
    ensures CopyAll(h, obj, ps + [p]) == Put(CopyAll(h, obj, ps), obj, p.key, p.value)
    decreases |ps|
  {
    if ps != [] {
      assert (ps + [p])[1..] == ps[1..] + [p];
      CopyAllSnoc(Put(h, obj, ps[0].key, ps[0].value), obj, ps[1..], p);
    }
  }

  /** A write under another key leaves `hasOwnProperty` for a key as it was. */
  lemma HasOwnAfterPut(h: Store, obj: Value, k: Key, v: Value, src: Value, k': Key)
    requires k' != k
    ensures HasOwn(Put(h, obj, k, v), src, k') == HasOwn(h, src, k')
  {
  }

  /** The values a completed run hands the callback are values of the store. */
  lemma ValuesIn(h: Store, src: Value, itemAt: nat -> Value, vs: seq<Visit>)
    requires WellFormed(h) && ValueIn(h, src)
    requires forall i :: ValueIn(h, itemAt(i))
    requires IsIndexedType(TypeOf(h, src)) ==> Ok(vs) == IndexedRun(h, src, Silent, itemAt)
    requires IsKeyedType(TypeOf(h, src)) ==> KeyedRun(h, src, h[src.addr], Silent, false, vs)
    requires IsIndexedType(TypeOf(h, src)) || IsKeyedType(TypeOf(h, src))
    ensures forall i :: 0 <= i < |vs| ==> ValueIn(h, vs[i].value)
  {
    forall i | 0 <= i < |vs| ensures ValueIn(h, vs[i].value) {
      if IsIndexedType(TypeOf(h, src)) {
        UntilStopAll(Elements(h, src, itemAt), Silent);
        assert vs[i] == Elements(h, src, itemAt)[i];
      }
      GetIn(h, src, vs[i].key);
    }
  }

  /** A visit whose key `src` does not own adds no pair. */
  lemma OwnPairsSkip(h0: Store, src: Value, vs: seq<Visit>, j: nat)
    requires j < |vs| && !HasOwn(h0, src, vs[j].key)
    ensures OwnPairs(h0, src, vs[..j + 1]) == OwnPairs(h0, src, vs[..j])
  {
    assert vs[..j + 1][..j] == vs[..j];
  }

  /** The invariant of the copying loop after `j` visits. */
  predicate Copying(h0: Store, h: Store, obj: Value, src: Value, vs: seq<Visit>, j: nat) {
    && j <= |vs| && h.Keys == h0.Keys
    && h == CopyAll(h0, obj, OwnPairs(h0, src, vs[..j]))
    && (IsNullish(obj) ==> OwnPairs(h0, src, vs[..j]) == [])
    && forall i :: j <= i < |vs| ==> HasOwn(h, src, vs[i].key) == HasOwn(h0, src, vs[i].key)
  }

  /** A visit whose key `src` owns is written and the invariant moves on. */
  lemma CopyTurn(h0: Store, h: Store, h': Store, obj: Value, src: Value, vs: seq<Visit>, j: nat)
    requires Copying(h0, h, obj, src, vs, j) && j < |vs| && WellFormed(h) && ValueIn(h, vs[j].value)
    requires forall i, i' :: 0 <= i < i' < |vs| ==> vs[i].key != vs[i'].key
    requires HasOwn(h, src, vs[j].key) && !IsNullish(obj) && h' == Put(h, obj, vs[j].key, vs[j].value)
    ensures Copying(h0, h', obj, src, vs, j + 1)
  {
    CopyStep(h0, h, obj, src, vs, j);
  }

  /** A visit whose key `src` does not own is skipped. */
  lemma SkipTurn(h0: Store, h: Store, obj: Value, src: Value, vs: seq<Visit>, j: nat)
    requires Copying(h0, h, obj, src, vs, j) && j < |vs| && !HasOwn(h, src, vs[j].key)
    ensures Copying(h0, h, obj, src, vs, j + 1)
  {
    OwnPairsSkip(h0, src, vs, j);
  }

  /** A turn that throws has a kept pair in the whole run. */
  lemma CopyThrows(h0: Store, h: Store, obj: Value, src: Value, vs: seq<Visit>, j: nat)
    requires Copying(h0, h, obj, src, vs, j) && j < |vs| && HasOwn(h, src, vs[j].key)
    ensures OwnPairs(h0, src, vs) != []
  {
    assert vs[..j + 1][..j] == vs[..j];
    OwnPairsPrefix(h0, src, vs, j + 1);
  }

  /** One write of the copying loop: the store gains the next kept pair and
      ownership of the keys still to come is unaffected. */
  lemma CopyStep(h0: Store, h: Store, obj: Value, src: Value, vs: seq<Visit>, j: nat)
    requires j < |vs| && WellFormed(h) && ValueIn(h, vs[j].value)
    requires forall i, i' :: 0 <= i < i' < |vs| ==> vs[i].key != vs[i'].key
    requires h == CopyAll(h0, obj, OwnPairs(h0, src, vs[..j]))
    requires HasOwn(h0, src, vs[j].key)
    ensures Put(h, obj, vs[j].key, vs[j].value) == CopyAll(h0, obj, OwnPairs(h0, src, vs[..j + 1]))
    ensures forall i :: j < i < |vs| ==>
              HasOwn(Put(h, obj, vs[j].key, vs[j].value), src, vs[i].key) == HasOwn(h, src, vs[i].key)
  {
    assert vs[..j + 1][..j] == vs[..j];
    CopyAllSnoc(h0, obj, OwnPairs(h0, src, vs[..j]), Pair(vs[j].key, vs[j].value));
    forall i | j < i < |vs|
      ensures HasOwn(Put(h, obj, vs[j].key, vs[j].value), src, vs[i].key) == HasOwn(h, src, vs[i].key)
    {
      HasOwnAfterPut(h, obj, vs[j].key, vs[j].value, src, vs[i].key);
    }
  }

  /** A completed `$each` run with the silent callback, filtered by ownership,
      lists each copied key of `src` once with the value the callback sees. */
  lemma EachCopies(h: Store, src: Value, itemAt: nat -> Value, vs: seq<Visit>)
    requires ValueIn(h, src)
    requires IsIndexedType(TypeOf(h, src)) ==> Ok(vs) == IndexedRun(h, src, Silent, itemAt)
    requires IsKeyedType(TypeOf(h, src)) ==> KeyedRun(h, src, h[src.addr], Silent, false, vs)
    requires IsIndexedType(TypeOf(h, src)) || IsKeyedType(TypeOf(h, src))
    ensures forall i, j :: 0 <= i < j < |vs| ==> vs[i].key != vs[j].key
    ensures CopiesOf(h, src, itemAt, OwnPairs(h, src, vs))
  {
    if IsIndexedType(TypeOf(h, src)) {
      IndexedCopies(h, src, itemAt, vs);
    } else {
      KeyedCopies(h, src, itemAt, vs);
    }
  }

  /** `EachCopies` for an array-like `src`: the visits are its elements. */
  lemma IndexedCopies(h: Store, src: Value, itemAt: nat -> Value, vs: seq<Visit>)
    requires ValueIn(h, src) && IsIndexedType(TypeOf(h, src))
    requires Ok(vs) == IndexedRun(h, src, Silent, itemAt)
    ensures forall i, j :: 0 <= i < j < |vs| ==> vs[i].key != vs[j].key
    ensures CopiesOf(h, src, itemAt, OwnPairs(h, src, vs))
  {
    var items := Elements(h, src, itemAt);
    UntilStopAll(items, Silent);
    assert vs == items;
    ElementPairs(h, src, itemAt, vs);
  }

  /** The pairs kept from the elements of an array-like `src`. */
  lemma ElementPairs(h: Store, src: Value, itemAt: nat -> Value, vs: seq<Visit>)
    requires ValueIn(h, src) && IsIndexedType(TypeOf(h, src)) && vs == Elements(h, src, itemAt)
    ensures forall i, j :: 0 <= i < j < |vs| ==> vs[i].key != vs[j].key
    ensures CopiesOf(h, src, itemAt, OwnPairs(h, src, vs))
  {
    OwnPairsFacts(h, src, vs);
    KeysOfMembers(vs);
    var ps := OwnPairs(h, src, vs);
    forall k | k in PairKeys(ps) ensures k in OwnIterKeys(h, src) {
      var i :| 0 <= i < |vs| && vs[i].key == k;
    }
    forall k | k in OwnIterKeys(h, src) ensures k in PairKeys(ps) {
      assert vs[k.i].key == k;
    }
    forall j | 0 <= j < |ps| ensures ps[j].value == SourceValue(h, src, ps[j].key, itemAt) {
      assert ps[j] in ps;
      var i :| 0 <= i < |vs| && vs[i] == Visit(ps[j].value, ps[j].key);
    }
  }

  /** `EachCopies` for a keyed `src`: the visits are its enumerable keys. */
  lemma KeyedCopies(h: Store, src: Value, itemAt: nat -> Value, vs: seq<Visit>)
    requires ValueIn(h, src) && !IsIndexedType(TypeOf(h, src)) && IsKeyedType(TypeOf(h, src))
    requires KeyedRun(h, src, h[src.addr], Silent, false, vs)
    ensures forall i, j :: 0 <= i < j < |vs| ==> vs[i].key != vs[j].key
    ensures CopiesOf(h, src, itemAt, OwnPairs(h, src, vs))
  {
    OwnPairsFacts(h, src, vs);
    KeysOfMembers(vs);
    var ps := OwnPairs(h, src, vs);
    forall k | k in PairKeys(ps) ensures k in OwnIterKeys(h, src) {
      var i :| 0 <= i < |vs| && vs[i].key == k;
    }
    forall k | k in OwnIterKeys(h, src) ensures k in PairKeys(ps) {
      assert !Stops(Silent(Undefined, k));
      assert k in KeysOf(vs);
    }
    forall j | 0 <= j < |ps| ensures ps[j].value == SourceValue(h, src, ps[j].key, itemAt) {
      assert ps[j] in ps;
      var i :| 0 <= i < |vs| && vs[i] == Visit(ps[j].value, ps[j].key);
    }
  }

  /** The body of the copying callback, run for each visit in turn: a visit
      whose key `src` owns becomes `$extend(obj, k, v)`. */
  method CopyVisits(h: Heap, obj: Value, src: Value, vs: seq<Visit>) returns (r: Result<()>)
    requires h.Valid()
    requires forall i, j :: 0 <= i < j < |vs| ==> vs[i].key != vs[j].key
    requires forall i :: 0 <= i < |vs| ==> ValueIn(h.cells, vs[i].value)
    modifies h
    ensures h.Valid()
    ensures r.Err? <==> IsNullish(obj) && OwnPairs(old(h.cells), src, vs) != []
    ensures r.Err? ==> r.error == NoProperties && h.cells == old(h.cells)
    ensures r.Ok? ==> h.cells == CopyAll(old(h.cells), obj, OwnPairs(old(h.cells), src, vs))
  {
    ghost var h0 := h.cells;
    assert vs[..0] == [];
    var j := 0;
    while j < |vs|
      invariant h.Valid() && Copying(h0, h.cells, obj, src, vs, j)
    {
      var v := vs[j];
      assert ValueIn(h.cells, v.value);
      if HasOwn(h.cells, src, v.key) {
        ghost var before := h.cells;
        var w := h.Assign(obj, v.key, v.value);
        if w.Err? {
          CopyThrows(h0, before, obj, src, vs, j);
          return Err(NoProperties);
        }
        CopyTurn(h0, before, h.cells, obj, src, vs, j);
      } else {
        SkipTurn(h0, h.cells, obj, src, vs, j);
      }
      j := j + 1;
    }
    assert vs[..j] == vs;
    r := Ok(());
  }

  /** Two-argument `$extend(obj, src)`: one `obj[k] = v` per own key of `src`
      that `$each` visits, in visiting order (the ghost `copied`). */
  method Extend2(h: Heap, obj: Value, src: Value, itemAt: nat -> Value) returns (r: Result<()>, ghost copied: seq<Pair>)
    requires h.Valid() && ValueIn(h.cells, src)
    requires forall i :: ValueIn(h.cells, itemAt(i))
    modifies h
    ensures h.Valid()
    ensures var t := TypeOf(old(h.cells), src);
              r == Err(NotIterable) <==> !IsIndexedType(t) && !IsKeyedType(t)
    ensures r == Err(NotCallable) <==>
              IsIndexedType(TypeOf(old(h.cells), src)) && IndexedRun(old(h.cells), src, Silent, itemAt).Err?
    ensures r.Err? ==> h.cells == old(h.cells)
    ensures r.Err? && r.error != NotIterable && r.error != NotCallable ==> r.error == NoProperties
    ensures r.Ok? || r.error == NoProperties ==> CopiesOf(old(h.cells), src, itemAt, copied)
    ensures r == Err(NoProperties) <==> (r.Ok? || r.error == NoProperties) && IsNullish(obj) && copied != []
    ensures r.Ok? ==> h.cells == CopyAll(old(h.cells), obj, copied)
  {
    ghost var h0 := h.cells;
    var run := Each(h, src, Silent, false, itemAt);
    copied := [];
    if run.Err? {
      return Err(run.error), copied;
    }
    var vs := run.value;
    EachCopies(h0, src, itemAt, vs);
    ValuesIn(h0, src, itemAt, vs);
    copied := OwnPairs(h0, src, vs);
    r := CopyVisits(h, obj, src, vs);
  }

  /** After a successful two-argument `$extend` into a container, every
      copied key holds the source's value and every other property and
      container is as before. */
  lemma ExtendEffect(h: Store, o: Addr, src: Value, itemAt: nat -> Value, copied: seq<Pair>)
    requires WellFormed(h) && o in h && ValueIn(h, src)
    requires forall i :: ValueIn(h, itemAt(i))
    requires CopiesOf(h, src, itemAt, copied)
    ensures CopyAll(h, Ref(o), copied).Keys == h.Keys
    ensures forall a :: a in h && a != o ==> CopyAll(h, Ref(o), copied)[a] == h[a]
    ensures forall k :: k in OwnIterKeys(h, src) && !IsLengthOfArray(h[o], k) ==>
              Get(CopyAll(h, Ref(o), copied), Ref(o), k) == SourceValue(h, src, k, itemAt)
    ensures forall k :: k !in OwnIterKeys(h, src) && !IsLengthOfArray(h[o], k) ==>
              Get(CopyAll(h, Ref(o), copied), Ref(o), k) == Get(h, Ref(o), k)
  {
    forall j | 0 <= j < |copied| ensures ValueIn(h, copied[j].value) {
      GetIn(h, src, copied[j].key);
    }
    CopyAllEffect(h, o, copied);
    forall k | k in OwnIterKeys(h, src) && !IsLengthOfArray(h[o], k)
      ensures Get(CopyAll(h, Ref(o), copied), Ref(o), k) == SourceValue(h, src, k, itemAt)
    {
      var j :| 0 <= j < |copied| && copied[j].key == k;
    }
  }
}
