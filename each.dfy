/** `$each`: one iteration abstraction over indexable and keyed values.

  The callback is a pure function of the element and its index or key; what
  it returns decides whether iteration goes on. Only the exact value `false`
  stops it. The method returns the visits it made, in order.
 */
module Iterator {
  import opened Keys
  import opened Heaps
  import opened Classifier

  /** One callback invocation: `fn(value, key)`. */
  datatype Visit = Visit(value: Value, key: Key)

  /** `fn(...) === false`. */
  predicate Stops(r: Value) {
    r == Bool(false)
  }

  predicate IsIndexedType(t: string) {
    t == "Collection" || t == "Arguments" || t == "Array"
  }

  predicate IsKeyedType(t: string) {
    t == "Function" || t == "Object"
  }

  /** The bound `i < obj.length` runs to. */
  function LengthOf(h: Store, v: Value): nat {
    match Get(h, v, Name("length"))
    case Num(n) => if n > 0 then n else 0
    case _ => 0
  }

  predicate IsCallable(h: Store, v: Value) {
    v.Ref? && v.addr in h && h[v.addr].cls == "Function"
  }

  /** `obj.item ? obj.item(i) : obj[i]`; `itemAt` stands for the host accessor. */
  function ElementAt(h: Store, v: Value, i: nat, itemAt: nat -> Value): Value {
    if Has(h, v, "item") then itemAt(i) else Get(h, v, Index(i))
  }

  /** The (element, index) pairs of an indexable value, positions 0 .. length - 1. */
  function Elements(h: Store, v: Value, itemAt: nat -> Value): (es: seq<Visit>)
    ensures |es| == LengthOf(h, v)
    ensures forall i :: 0 <= i < |es| ==> es[i] == Visit(ElementAt(h, v, i, itemAt), Index(i))
  {
    seq(LengthOf(h, v), i requires 0 <= i => Visit(ElementAt(h, v, i, itemAt), Index(i)))
  }

  /** The keys `for (key in obj)` enumerates, restricted to own keys when `local`. */
  function EnumKeys(c: Cell, local: bool): set<Key> {
    if local then c.own.Keys else c.own.Keys + c.inherited.Keys
  }

  /** The visits made over `items`: up to and including the first callback
      that returns exactly `false`. */
  function UntilStop(items: seq<Visit>, fn: (Value, Key) -> Value): (r: seq<Visit>)
    ensures r <= items
    ensures forall j :: 0 <= j < |r| - 1 ==> !Stops(fn(r[j].value, r[j].key))
    ensures |r| < |items| ==> |r| > 0 && Stops(fn(r[|r| - 1].value, r[|r| - 1].key))
  {
    if items == [] then []
    else if Stops(fn(items[0].value, items[0].key)) then [items[0]]
    else [items[0]] + UntilStop(items[1..], fn)
  }

  /** When the callback first returns `false` at position `i`, exactly the
      positions 0 .. i are visited. */
  lemma {:induction false} UntilStopAt(items: seq<Visit>, fn: (Value, Key) -> Value, i: nat)
    requires i < |items| && Stops(fn(items[i].value, items[i].key))
    requires forall j :: 0 <= j < i ==> !Stops(fn(items[j].value, items[j].key))
    ensures UntilStop(items, fn) == items[..i + 1]
  {
    if i > 0 {
      UntilStopAt(items[1..], fn, i - 1);
      assert items[..i + 1] == [items[0]] + items[1..][..i];
    }
  }

  /** When no callback returns `false`, every position is visited; other
      falsy results (0, "", null, undefined) do not stop the run. */
  lemma {:induction false} UntilStopAll(items: seq<Visit>, fn: (Value, Key) -> Value)
    requires forall j :: 0 <= j < |items| ==> !Stops(fn(items[j].value, items[j].key))
    ensures UntilStop(items, fn) == items
  {
    if items != [] {
      UntilStopAll(items[1..], fn);
    }
  }

  /** The outcome over an indexable value. A truthy `item` that is not a
      function throws on the first position. */
  function IndexedRun(h: Store, v: Value, fn: (Value, Key) -> Value, itemAt: nat -> Value): Result<seq<Visit>> {
    if Has(h, v, "item") && !IsCallable(h, Get(h, v, Name("item"))) && LengthOf(h, v) > 0 then Err(NotCallable)
    else Ok(UntilStop(Elements(h, v, itemAt), fn))
  }

  /** The keys a sequence of visits touched. */
  function KeysOf(vs: seq<Visit>): set<Key> {
    if vs == [] then {} else KeysOf(vs[..|vs| - 1]) + {vs[|vs| - 1].key}
  }

  /** A key is in `KeysOf(vs)` exactly when some visit has it. */
  lemma {:induction false} KeysOfMembers(vs: seq<Visit>)
    ensures forall k :: k in KeysOf(vs) <==> exists i :: 0 <= i < |vs| && vs[i].key == k
  {
    if vs != [] {
      var init := vs[..|vs| - 1];
      KeysOfMembers(init);
      forall k | k in KeysOf(vs) ensures exists i :: 0 <= i < |vs| && vs[i].key == k {
        if k in KeysOf(init) {
          var i :| 0 <= i < |init| && init[i].key == k;
          assert vs[i].key == k;
        } else {
          assert vs[|vs| - 1].key == k;
        }
      }
      forall k | exists i :: 0 <= i < |vs| && vs[i].key == k ensures k in KeysOf(vs) {
        var i :| 0 <= i < |vs| && vs[i].key == k;
        if i < |vs| - 1 {
          assert init[i].key == k;
        }
      }
    }
  }

  /** A run over the keys of container `c`: distinct enumerable keys with
      their values, every callback but the last continuing, and either every
      key visited or the last callback returning `false`. */
  predicate KeyedRun(h: Store, v: Value, c: Cell, fn: (Value, Key) -> Value, local: bool, vs: seq<Visit>) {
    && (forall j :: 0 <= j < |vs| ==> vs[j].key in EnumKeys(c, local) && vs[j].value == Get(h, v, vs[j].key))
    && (forall i, j :: 0 <= i < j < |vs| ==> vs[i].key != vs[j].key)
    && (forall j :: 0 <= j < |vs| - 1 ==> !Stops(fn(vs[j].value, vs[j].key)))
    && (KeysOf(vs) == EnumKeys(c, local)
        || (|vs| > 0 && Stops(fn(vs[|vs| - 1].value, vs[|vs| - 1].key))))
  }

  /** `$each(subject, fn, local)`. The receiver `bind` is left out: the
      callback here is a pure function of its two arguments. */
  method Each(h: Heap, subject: Value, fn: (Value, Key) -> Value, local: bool, itemAt: nat -> Value)
    returns (r: Result<seq<Visit>>)
    requires ValueIn(h.cells, subject)
    ensures IsIndexedType(TypeOf(h.cells, subject)) ==> r == IndexedRun(h.cells, subject, fn, itemAt)
    ensures IsKeyedType(TypeOf(h.cells, subject)) ==>
              r.Ok? && KeyedRun(h.cells, subject, h.cells[subject.addr], fn, local, r.value)
    ensures !IsIndexedType(TypeOf(h.cells, subject)) && !IsKeyedType(TypeOf(h.cells, subject)) ==>
              r == Err(NotIterable)
  {
    var t := TypeOf(h.cells, subject);
    if IsIndexedType(t) {
      r := EachIndexed(h, subject, fn, itemAt);
    } else if IsKeyedType(t) {
      r := EachKeyed(h, subject, fn, local);
    } else {
      r := Err(NotIterable);
    }
  }

  /** The `for (var i = 0; i < length; i++)` branch of `$each`. */
  method EachIndexed(h: Heap, subject: Value, fn: (Value, Key) -> Value, itemAt: nat -> Value)
    returns (r: Result<seq<Visit>>)
    requires ValueIn(h.cells, subject) && IsIndexedType(TypeOf(h.cells, subject))
    ensures r == IndexedRun(h.cells, subject, fn, itemAt)
  {
    var n := LengthOf(h.cells, subject);
    ghost var items := Elements(h.cells, subject, itemAt);
    var visits: seq<Visit> := [];
    var i := 0;
    while i < n
      invariant 0 <= i <= n
      invariant visits == items[..i]
      invariant forall j :: 0 <= j < i ==> !Stops(fn(items[j].value, items[j].key))
      invariant i > 0 && Has(h.cells, subject, "item") ==> IsCallable(h.cells, Get(h.cells, subject, Name("item")))
    {
      var cur;
      if Has(h.cells, subject, "item") {
        if !IsCallable(h.cells, Get(h.cells, subject, Name("item"))) {
          return Err(NotCallable);
        }
        cur := itemAt(i);
      } else {
        cur := Get(h.cells, subject, Index(i));
      }
      assert items[i] == Visit(cur, Index(i));
      visits := visits + [Visit(cur, Index(i))];
      assert visits == items[..i + 1];
      if Stops(fn(cur, Index(i))) {
        UntilStopAt(items, fn, i);
        return Ok(visits);
      }
      i := i + 1;
    }
    UntilStopAll(items, fn);
    assert visits == items;
    return Ok(visits);
  }

  /** The `for (var key in subject)` branch of `$each`. */
  method EachKeyed(h: Heap, subject: Value, fn: (Value, Key) -> Value, local: bool)
    returns (r: Result<seq<Visit>>)
    requires ValueIn(h.cells, subject) && IsKeyedType(TypeOf(h.cells, subject))
    ensures r.Ok? && KeyedRun(h.cells, subject, h.cells[subject.addr], fn, local, r.value)
  {
    var c := h.cells[subject.addr];
    var keys := EnumKeys(c, local);
    var remaining := keys;
    var visits: seq<Visit> := [];
    while remaining != {}
      invariant remaining <= keys
      invariant forall j :: 0 <= j < |visits| ==>
                  visits[j].key in keys && visits[j].key !in remaining && visits[j].value == Get(h.cells, subject, visits[j].key)
      invariant forall i, j :: 0 <= i < j < |visits| ==> visits[i].key != visits[j].key
      invariant forall j :: 0 <= j < |visits| ==> !Stops(fn(visits[j].value, visits[j].key))
      invariant KeysOf(visits) == keys - remaining
      decreases remaining
    {
      var key :| key in remaining;
      remaining := remaining - {key};
      var cur := Get(h.cells, subject, key);
      ghost var before := visits;
      visits := visits + [Visit(cur, key)];
      assert visits[..|before|] == before;
      if Stops(fn(cur, key)) {
        return Ok(visits);
      }
    }
    return Ok(visits);
  }
}
