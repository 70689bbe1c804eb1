/** What `Merged` means on small stores: arrays are merged key by key, and a
    value that is not an object on both sides is replaced. */
module MergeExamples {
  import opened Keys
  import opened Heaps
  import opened Iterator
  import opened Graphs
  import opened MergeSpec

  /** After the merge, each key `obj` owns reads `obj`'s value on `orig`,
      unless both sides held objects, in which case `orig` keeps its own
      (merged) object. */
  lemma MergeWins(h0: Store, h1: Store, o: Addr, s: Addr, d: nat, k: Key)
    requires o in h0 && s in h0 && Merged(h0, h1, o, s, d)
    requires k in h0[s].own && !IsLengthOfArray(h0[o], k)
    ensures k !in RecKeys(h0, o, s) ==> Get(h1, Ref(o), k) == Get(h0, Ref(s), k)
    ensures k in RecKeys(h0, o, s) ==> Get(h1, Ref(o), k) == Get(h0, Ref(o), k)
  {
    assert k in Written(h0, o, s, ForInKeys(h0, s));
  }

  /** A key `obj` does not own reads the same on `orig` before and after. */
  lemma MergeKeepsOthers(h0: Store, h1: Store, o: Addr, s: Addr, d: nat, k: Key)
    requires o in h0 && s in h0 && Merged(h0, h1, o, s, d)
    requires !HasOwn(h0, Ref(s), k) && !IsLengthOfArray(h0[o], k)
    ensures Get(h1, Ref(o), k) == Get(h0, Ref(o), k)
  {
    assert k !in Written(h0, o, s, ForInKeys(h0, s));
  }

  function Arr(own: map<Key, Value>, len: nat): Cell {
    Cell("Array", true, own, map[], len, Undefined)
  }

  function Obj(own: map<Key, Value>): Cell {
    Cell("Object", true, own, map[], 0, Undefined)
  }

  /** `orig = {a: [1, 2]}` at 0 and 1, `obj = {a: [3]}` at 2 and 3. */
  function ArrayStore(): Store {
    map[0 := Obj(map[Name("a") := Ref(1)]),
        1 := Arr(map[Index(0) := Num(1), Index(1) := Num(2)], 2),
        2 := Obj(map[Name("a") := Ref(3)]),
        3 := Arr(map[Index(0) := Num(3)], 1)]
  }

  lemma ArrayStoreLeaves()
    ensures FP(ArrayStore(), Ref(1), 0) == {1} && FP(ArrayStore(), Ref(3), 0) == {3}
  {
    var h := ArrayStore();
    forall a | a in h ensures Reaches(h, Ref(3), a, 0) <==> a == 3 { }
    forall a | a in h ensures Reaches(h, Ref(1), a, 0) <==> a == 1 { }
  }

  lemma ArrayStoreRoots()
    ensures FP(ArrayStore(), Ref(0), 1) == {0, 1} && FP(ArrayStore(), Ref(2), 1) == {2, 3}
  {
    var h := ArrayStore();
    forall a | a in h ensures Reaches(h, Ref(2), a, 1) <==> a == 2 || a == 3 {
      assert h[2].own[Name("a")] == Ref(3);
    }
    forall a | a in h ensures Reaches(h, Ref(0), a, 1) <==> a == 0 || a == 1 {
      assert h[0].own[Name("a")] == Ref(1);
    }
  }

  lemma ArrayStoreWellFormed()
    ensures WellFormed(ArrayStore())
  {
    var h := ArrayStore();
    assert CellOk(h, h[0]) && CellOk(h, h[1]) && CellOk(h, h[2]) && CellOk(h, h[3]);
  }

  lemma ArrayStoreBounded()
    ensures Bounded(ArrayStore(), Ref(2), 1)
  {
    assert Bounded(ArrayStore(), Ref(3), 0);
  }

  lemma ArrayStoreUnshared()
    ensures Unshared(ArrayStore(), Ref(0), 1)
  {
    ArrayStoreLeaves();
    assert Unshared(ArrayStore(), Ref(1), 0);
  }

  /** The store meets the merge's precondition. */
  lemma ArrayStorePre()
    ensures WellFormed(ArrayStore()) && MergePre(ArrayStore(), 0, 2, 1)
  {
    ArrayStoreWellFormed();
    ArrayStoreBounded();
    ArrayStoreUnshared();
    ArrayStoreRoots();
  }

  /** The keys the merge of `obj` into `orig` sees. */
  lemma ArrayStoreKeys()
    ensures ForInKeys(ArrayStore(), 2) == {Name("a")} && RecKeys(ArrayStore(), 0, 2) == {Name("a")}
    ensures ChildAddr(ArrayStore(), 0, Name("a")) == 1 && ChildAddr(ArrayStore(), 2, Name("a")) == 3
    ensures ForInKeys(ArrayStore(), 3) == {Index(0)} && RecKeys(ArrayStore(), 1, 3) == {}
    ensures Written(ArrayStore(), 1, 3, {Index(0)}) == {Index(0)}
    ensures Written(ArrayStore(), 0, 2, {Name("a")}) == {Name("a")}
  {
    var h0 := ArrayStore();
    assert Name("a") in RecKeys(h0, 0, 2);
  }

  /** The inner array after the merge. */
  lemma ArrayChild(h1: Store)
    requires 1 in h1 && RootMergedOn(ArrayStore(), 1, 3, {Index(0)}, h1[1])
    ensures h1[1] == Arr(map[Index(0) := Num(3), Index(1) := Num(2)], 2)
  {
    var h0 := ArrayStore();
    ArrayStoreKeys();
    var c1 := h1[1];
    assert IsLenAfter(2, {Index(0)}, c1.len);
    assert c1.len == 2;
    assert c1.own.Keys == {Index(0), Index(1)};
    assert c1.own[Index(0)] == Get(h0, Ref(3), Index(0)) == Num(3);
    assert c1.own[Index(1)] == Num(2);
    assert c1.own == map[Index(0) := Num(3), Index(1) := Num(2)];
  }

  /** The outer object after the merge: its `a` still refers to the same array. */
  lemma ArrayRoot(h1: Store)
    requires 0 in h1 && RootMergedOn(ArrayStore(), 0, 2, {Name("a")}, h1[0])
    ensures h1[0] == ArrayStore()[0]
  {
    ArrayStoreKeys();
    assert h1[0].own == ArrayStore()[0].own;
  }

  /** The merge writes only to `orig` and its array. */
  lemma ArrayTouches()
    ensures !Touches(ArrayStore(), 0, 2, 1, {Name("a")}, 2) && !Touches(ArrayStore(), 0, 2, 1, {Name("a")}, 3)
  {
    ArrayStoreKeys();
    assert !Touches(ArrayStore(), 1, 3, 0, {Index(0)}, 2);
    assert !Touches(ArrayStore(), 1, 3, 0, {Index(0)}, 3);
  }

  /** `[3]` merged into `[1, 2]` leaves `[3, 2]`: the merge writes index 0
      and keeps index 1, and nothing else changes. */
  lemma ArrayMergedByKey(h1: Store)
    requires Merged(ArrayStore(), h1, 0, 2, 1)
    ensures h1[1] == Arr(map[Index(0) := Num(3), Index(1) := Num(2)], 2)
    ensures h1[0] == ArrayStore()[0] && h1[2] == ArrayStore()[2] && h1[3] == ArrayStore()[3]
  {
    ArrayStoreKeys();
    assert MergedOn(ArrayStore(), h1, 0, 2, 1, {Name("a")});
    assert MergedOn(ArrayStore(), h1, 1, 3, 0, {Index(0)});
    ArrayChild(h1);
    ArrayRoot(h1);
    ArrayTouches();
  }
}
