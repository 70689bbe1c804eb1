/** What `$clone` computes, stated on the store it starts from.

  `$clone` copies a value breadth-first. A value whose constructor is Date,
  RegExp, String, Function, Number or Boolean is a leaf (`isPrimitive`) and
  is copied by `new obj.constructor(obj).valueOf()` (a function is shared);
  a plain object or array gets a fresh `{}` or `[]` whose entries are the
  copies of the entries `$each` enumerates. Anything else on the way throws.

  Depths are budgets: a budget `e` of a container allows `e - 1` more levels
  below it, which is what `CloneBounded` guarantees for the input.
 */
module CloneSpec {
  import opened Keys
  import opened Heaps
  import opened Classifier
  import opened Iterator
  import opened Graphs

  /** The constructors `isPrimitive` accepts. For the built-in objects the
      constructor's name is the class name `Object.prototype.toString` reports. */
  predicate IsLeafClass(cls: string) {
    cls == "Date" || cls == "RegExp" || cls == "String" || cls == "Function" || cls == "Number" || cls == "Boolean"
  }

  /** `isPrimitive(v)`: reading `v.constructor` throws on undefined and null;
      booleans, numbers and strings are leaves, plain objects and arrays are not. */
  function IsPrimitive(h: Store, v: Value): (r: Result<bool>)
    ensures r.Err? <==> IsNullish(v)
    ensures r.Err? ==> r.error == NoProperties
    ensures v.Bool? || v.Num? || v.Str? ==> r == Ok(true)
    ensures IsContainer(h, v) ==> r == Ok(false)
  {
    if IsNullish(v) then Err(NoProperties) else Ok(IsLeafClass(ClassName(h, v)))
  }

  /** `isSimple(v)`: a plain object, an array, or a leaf. It throws exactly
      on undefined and null. */
  function IsSimple(h: Store, v: Value): (r: Result<bool>)
    ensures r.Err? <==> IsNullish(v)
    ensures r == Ok(true) <==> IsContainer(h, v) || IsLeaf(h, v)
  {
    var t := TypeOf(h, v);
    if t == "Object" || t == "Array" then Ok(true) else IsPrimitive(h, v)
  }

  predicate IsLeaf(h: Store, v: Value) {
    IsPrimitive(h, v) == Ok(true)
  }

  /** What `$clone` copies entry by entry: a plain object or an array. */
  predicate IsContainer(h: Store, v: Value) {
    var t := TypeOf(h, v);
    t == "Object" || t == "Array"
  }

  /** `new obj.constructor(obj).valueOf()` for a leaf other than a RegExp:
      wrapper objects and Dates give their primitive payload, a Boolean
      object always gives `true` (an object is truthy), primitives give
      themselves, and a function is returned as it is. */
  function LeafValue(h: Store, v: Value): Value {
    if v.Ref? && v.addr in h then
      var c := h[v.addr];
      if c.cls == "Function" then v
      else if c.cls == "Boolean" then Bool(true)
      else c.prim
    else v
  }

  predicate IsRegExp(h: Store, v: Value) {
    v.Ref? && v.addr in h && h[v.addr].cls == "RegExp"
  }

  /** `new RegExp(re)`: a fresh RegExp with the same pattern and no expandos. */
  function RegExpCopy(c: Cell): Cell {
    Cell("RegExp", true, map[], c.inherited, 0, c.prim)
  }

  /** `c` in `h` is the copy `simpleClone` makes of the leaf `v` of `h0`. */
  predicate LeafCopyOf(h0: Store, h: Store, v: Value, c: Value) {
    if IsRegExp(h0, v) then
      c.Ref? && c.addr in h && c.addr !in h0 && h[c.addr] == RegExpCopy(h0[v.addr])
    else
      c == LeafValue(h0, v)
  }

  function IndexKeys(n: nat): set<Key> {
    set i | 0 <= i < n :: Index(i)
  }

  /** The keys `$each(v, fn)` visits: the positions of an array, and the
      own and inherited enumerable keys of a plain object. */
  function ChildKeys(h: Store, v: Value): set<Key> {
    if TypeOf(h, v) == "Array" then IndexKeys(LengthOf(h, v))
    else if v.Ref? && v.addr in h then EnumKeys(h[v.addr], false)
    else {}
  }

  /** Every chain of entries `$clone` follows from `v` ends within `d` steps.
      Only the entries of plain objects and arrays are followed: the named
      keys of an array and the properties of a leaf are never copied, so a
      cycle through them does not count. */
  predicate CloneBounded(h: Store, v: Value, d: nat)
    decreases d
  {
    v.Ref? && v.addr in h && IsContainer(h, v) ==>
      forall k :: k in ChildKeys(h, v) && Get(h, v, k).Ref? ==> d > 0 && CloneBounded(h, Get(h, v, k), d - 1)
  }

  /** The empty copy of the container `v`: its class, its length once every
      position is filled, no inherited enumerable properties, no payload. */
  predicate ShellOf(h0: Store, v: Value, c: Cell) {
    && c.cls == TypeOf(h0, v) && c.isObject && c.inherited == map[] && c.prim == Undefined
  }

  function CopyLength(h0: Store, v: Value): nat {
    if TypeOf(h0, v) == "Array" then LengthOf(h0, v) else 0
  }

  /** A container budget `e` has room for its level. */
  predicate Budgeted(h: Store, v: Value, e: nat) {
    v.Ref? ==> e > 0 && CloneBounded(h, v, e - 1)
  }

  /** `$clone` of `v` finishes without throwing: every value met is simple,
      and none is undefined or null. */
  predicate Cloneable(h: Store, v: Value, e: nat)
    decreases e
  {
    && IsSimple(h, v) == Ok(true)
    && (IsLeaf(h, v) || (e > 0 && forall k :: k in ChildKeys(h, v) ==> Cloneable(h, Get(h, v, k), e - 1)))
  }

  /** `c` in `h` is a deep copy of `v` in `h0`: leaves as `simpleClone`
      makes them, containers as fresh containers of the same class and
      length holding copies of every entry `$each` visits. */
  predicate DeepCopy(h0: Store, h: Store, v: Value, c: Value, e: nat)
    decreases e
  {
    && IsSimple(h0, v) == Ok(true)
    && if IsLeaf(h0, v) then LeafCopyOf(h0, h, v, c)
       else
         && e > 0 && c.Ref? && c.addr in h && c.addr !in h0
         && ShellOf(h0, v, h[c.addr]) && h[c.addr].len == CopyLength(h0, v)
         && h[c.addr].own.Keys == ChildKeys(h0, v)
         && forall k :: k in ChildKeys(h0, v) ==> DeepCopy(h0, h, Get(h0, v, k), h[c.addr].own[k], e - 1)
  }

  /** The visits `$each(v, fn)` makes when `fn` never returns `false`. */
  predicate ChildVisits(h: Store, v: Value, vs: seq<Visit>) {
    && (forall j :: 0 <= j < |vs| ==> vs[j].key in ChildKeys(h, v) && vs[j].value == Get(h, v, vs[j].key))
    && (forall i, j :: 0 <= i < j < |vs| ==> vs[i].key != vs[j].key)
    && KeysOf(vs) == ChildKeys(h, v)
    && (TypeOf(h, v) == "Array" ==> forall j :: 0 <= j < |vs| ==> vs[j].key == Index(j))
  }

  /** How many entries a container can have. */
  function Width(c: Cell): nat {
    c.len + |c.own.Keys| + |c.inherited.Keys|
  }

  /** A bound on the width of every container of `h`. */
  ghost function MaxWidth(h: Store, s: set<Addr>): (b: nat)
    requires s <= h.Keys
    ensures forall a :: a in s ==> Width(h[a]) <= b
    decreases s
  {
    if s == {} then 0
    else
      var a :| a in s;
      var rest := MaxWidth(h, s - {a});
      if Width(h[a]) > rest then Width(h[a]) else rest
  }

  /** The weight of a pending entry of budget `e` when no container has
      more than `b` entries: enough to pay for itself and all it unfolds into. */
  function Weight(b: nat, e: nat): (w: nat)
    ensures w >= 2
  {
    if e == 0 then 2 else 2 + b * Weight(b, e - 1)
  }

  // ---------------------------------------------------------------------------
  // Lemmas.

  /** A deep copy exists only of a value whose clone does not throw. */
  lemma {:induction false} DeepCopyCloneable(h0: Store, h: Store, v: Value, c: Value, e: nat)
    requires DeepCopy(h0, h, v, c, e)
    ensures Cloneable(h0, v, e)
    decreases e
  {
    if !IsLeaf(h0, v) {
      var keys := ChildKeys(h0, v);
      var own := h[c.addr].own;
      assert forall k :: k in keys ==> DeepCopy(h0, h, Get(h0, v, k), own[k], e - 1);
      forall k | k in keys ensures Cloneable(h0, Get(h0, v, k), e - 1) {
        DeepCopyCloneable(h0, h, Get(h0, v, k), own[k], e - 1);
      }
    }
  }

  /** `var a = [1]; a.me = a`: the cycle runs through a named key of the
      array, which `$clone` does not copy, so the bound holds. */
  lemma SelfNamedArrayBounded(h: Store)
    requires h == map[0 := Cell("Array", true, map[Index(0) := Num(1), Name("me") := Ref(0)], map[], 1, Undefined)]
    ensures CloneBounded(h, Ref(0), 0)
  {
    assert TypeOf(h, Ref(0)) == "Array";
    assert ChildKeys(h, Ref(0)) == {Index(0)} by {
      assert IndexKeys(1) == {Index(0)};
    }
  }

  /** A simple value that is not a leaf is a plain object or an array in the store. */
  lemma SimpleContainer(h: Store, v: Value)
    requires IsSimple(h, v) == Ok(true) && !IsLeaf(h, v)
    ensures IsContainer(h, v) && v.Ref?
  {
  }

  /** The entries of a budgeted container are budgeted one level down. */
  lemma ChildBudget(h: Store, v: Value, e: nat, k: Key)
    requires WellFormed(h) && ValueIn(h, v) && Budgeted(h, v, e) && v.Ref?
    requires IsContainer(h, v) && k in ChildKeys(h, v)
    ensures Budgeted(h, Get(h, v, k), e - 1)
  {
    var c := h[v.addr];
    assert CellOk(h, c);
    var x := Get(h, v, k);
    if x.Ref? {
      assert !IsLengthOfArray(c, k);
      assert k in c.own;
    }
  }

  /** A container of budget 0 cannot exist, so an entry of budget 0 that is
      simple is a leaf. */
  lemma NoBudgetLeaf(h: Store, v: Value)
    requires Budgeted(h, v, 0) && IsSimple(h, v) == Ok(true)
    ensures IsLeaf(h, v)
  {
  }

  /** Unfolding an entry of budget `e > 0` into at most `b` entries of
      budget `e - 1`, plus one parent, costs less than the entry's weight. */
  lemma WeightPays(b: nat, e: nat, n: nat)
    requires e > 0 && n <= b
    ensures 1 + n * Weight(b, e - 1) < Weight(b, e)
  {
    var w := Weight(b, e - 1);
    assert n * w <= b * w by {
      assert (b - n) * w >= 0;
      assert b * w == n * w + (b - n) * w;
    }
  }

  /** Distinct keys: one key per visit. */
  lemma {:induction false} KeysOfCard(vs: seq<Visit>)
    requires forall i, j :: 0 <= i < j < |vs| ==> vs[i].key != vs[j].key
    ensures |KeysOf(vs)| == |vs|
  {
    if vs != [] {
      var init := vs[..|vs| - 1];
      KeysOfCard(init);
      KeysOfMembers(init);
      assert vs[|vs| - 1].key !in KeysOf(init);
    }
  }

  /** A container has at most `Width` entries to visit. */
  lemma VisitCount(h: Store, v: Value, vs: seq<Visit>)
    requires ChildVisits(h, v, vs) && IsContainer(h, v) && v.Ref? && v.addr in h
    ensures |vs| <= Width(h[v.addr])
  {
    KeysOfCard(vs);
    var c := h[v.addr];
    if TypeOf(h, v) == "Array" {
      assert LengthOf(h, v) == c.len;
      var s := IndexKeys(c.len);
      assert |s| == c.len by { IndexKeysCard(c.len); }
    } else {
      assert |c.own.Keys + c.inherited.Keys| <= |c.own.Keys| + |c.inherited.Keys|;
    }
  }

  lemma {:induction false} IndexKeysCard(n: nat)
    ensures |IndexKeys(n)| == n
  {
    if n > 0 {
      IndexKeysCard(n - 1);
      assert IndexKeys(n) == IndexKeys(n - 1) + {Index(n - 1)};
    }
  }
}
