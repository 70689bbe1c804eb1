/** `$delimit(obj, path, val, merge)`: read or write a value deep inside an
    object through a dotted path, creating the missing levels on a write. */
module PathAccessor {
  import opened Keys
  import opened Heaps
  import opened Classifier
  import opened Graphs
  import opened MergeSpec
  import opened Merger
  import opened PathSpec

  /** All segments but the last, and the last. */
  function Init(ks: seq<Key>): seq<Key>
    requires |ks| > 0
  {
    ks[..|ks| - 1]
  }

  function Last(ks: seq<Key>): Key
    requires |ks| > 0
  {
    ks[|ks| - 1]
  }

  /** What the merge branch of a write needs: when `lvl[last]` and `val`
      are both `instanceof Object` at the time of the merge, the shape
      `$merge` needs. */
  predicate SetPre(h: Store, next: Addr, obj: Value, ks: seq<Key>, val: Value, merge: Value, d: nat)
    requires |ks| > 0
  {
    Truthy(merge) ==>
      match Walk(h, next, obj, Init(ks), true)
      case Err(_) => true
      case Ok(w) =>
        var t := Get(w.h, w.lvl, Last(ks));
        InstObj(w.h, t) && InstObj(w.h, val) ==> MergePre(w.h, t.addr, val.addr, d)
  }

  predicate DelimitPre(h: Store, next: Addr, obj: Value, path: Value, val: Value, merge: Value, d: nat) {
    PathText(h, path).Ok? && !IsNullish(val) ==> SetPre(h, next, obj, Segments(PathText(h, path).value), val, merge, d)
  }

  /** The string `path.split(".")` splits: a string, or the payload of a
      String object. No other value has a `split` method, so the call throws. */
  function PathText(h: Store, path: Value): (t: Result<string>)
    ensures path.Str? ==> t == Ok(path.s)
    ensures t.Ok? <==> path.Str? || (path.Ref? && path.addr in h && ClassName(h, path) == "String" && h[path.addr].prim.Str?)
    ensures t.Err? ==> t.error == NotSplittable
  {
    match path
    case Str(s) => Ok(s)
    case Ref(a) =>
      if a in h && h[a].cls == "String" && h[a].prim.Str? then Ok(h[a].prim.s) else Err(NotSplittable)
    case _ => Err(NotSplittable)
  }

  /** Whether a write takes the merge branch, given where the walk ended. */
  predicate MergeBranch(w: Walked, last: Key, val: Value, merge: Value) {
    && !IsNullish(w.lvl) && Truthy(merge)
    && TypeOf(w.h, Get(w.h, w.lvl, last)) == "Object" && TypeOf(w.h, val) == "Object"
  }

  /** The write half of one turn of the loop of `$delimit` on the heap. */
  method TouchOnce(h: Heap, lvl: Value, k: Key, writes: bool)
    requires h.Valid() && ValueIn(h.cells, lvl) && !IsNullish(lvl)
    modifies h
    ensures h.Valid() && ValueIn(h.cells, lvl) && old(h.cells).Keys <= h.cells.Keys
    ensures Touch(old(h.cells), old(h.next), lvl, k, writes) == Walked(h.cells, h.next, lvl)
  {
    ghost var h0, n0 := h.cells, h.next;
    if writes {
      var cur := Get(h.cells, lvl, k);
      GetIn(h.cells, lvl, k);
      if cur != Undefined {
        var _ := h.Assign(lvl, k, cur);
        assert h.cells == Put(h0, lvl, k, cur);
      } else {
        AttachEmpty(h, lvl, k);
      }
    }
  }

  /** `lvl[k] = {}`. */
  method AttachEmpty(h: Heap, lvl: Value, k: Key)
    requires h.Valid() && ValueIn(h.cells, lvl) && !IsNullish(lvl)
    modifies h
    ensures h.Valid() && ValueIn(h.cells, lvl) && old(h.cells).Keys <= h.cells.Keys
    ensures h.cells == Put(old(h.cells)[old(h.next) := EmptyObject()], lvl, k, Ref(old(h.next)))
    ensures h.next == old(h.next) + 1
  {
    var a := h.Alloc(EmptyObject());
    var _ := h.Assign(lvl, k, Ref(a));
  }

  /** The read half: `lvl = lvl[k] || {}`. */
  method DescendOnce(h: Heap, lvl: Value, k: Key) returns (x: Value)
    requires h.Valid() && ValueIn(h.cells, lvl) && !IsNullish(lvl)
    modifies h
    ensures h.Valid() && ValueIn(h.cells, x) && !IsNullish(x) && old(h.cells).Keys <= h.cells.Keys
    ensures Descend(old(h.cells), old(h.next), lvl, k) == Walked(h.cells, h.next, x)
  {
    ghost var h1 := h.cells;
    x := Get(h.cells, lvl, k);
    GetIn(h.cells, lvl, k);
    if !Truthy(x) {
      var b := h.Alloc(EmptyObject());
      assert h.cells == h1[b := EmptyObject()];
      x := Ref(b);
    }
  }

  /** One turn of the loop of `$delimit` on the heap. */
  method StepOnce(h: Heap, lvl: Value, k: Key, writes: bool) returns (x: Value)
    requires h.Valid() && ValueIn(h.cells, lvl) && !IsNullish(lvl)
    modifies h
    ensures h.Valid() && ValueIn(h.cells, x) && !IsNullish(x) && old(h.cells).Keys <= h.cells.Keys
    ensures Step(old(h.cells), old(h.next), lvl, k, writes) == Walked(h.cells, h.next, x)
  {
    TouchOnce(h, lvl, k, writes);
    x := DescendOnce(h, lvl, k);
  }

  /** The loop of `$delimit` over all segments but the last. */
  method WalkPath(h: Heap, obj: Value, ks: seq<Key>, writes: bool) returns (r: Result<Value>)
    requires h.Valid() && ValueIn(h.cells, obj)
    modifies h
    ensures h.Valid() && old(h.cells).Keys <= h.cells.Keys
    ensures var wr := Walk(old(h.cells), old(h.next), obj, ks, writes);
            match wr
            case Err(e) => r == Err(NoProperties) && e == NoProperties && h.cells == old(h.cells)
            case Ok(w) => r == Ok(w.lvl) && h.cells == w.h && h.next == w.next && ValueIn(h.cells, w.lvl)
  {
    ghost var h0, n0 := h.cells, h.next;
    var lvl := obj;
    var i := 0;
    while i < |ks|
      invariant 0 <= i <= |ks|
      invariant h.Valid() && ValueIn(h.cells, lvl) && h0.Keys <= h.cells.Keys
      invariant Walk(h0, n0, obj, ks, writes) == Walk(h.cells, h.next, lvl, ks[i..], writes)
      invariant i == 0 ==> h.cells == h0 && lvl == obj
      invariant i > 0 ==> !IsNullish(lvl)
    {
      assert ks[i..][0] == ks[i] && ks[i..][1..] == ks[i + 1..];
      if IsNullish(lvl) {
        return Err(NoProperties);
      }
      lvl := StepOnce(h, lvl, ks[i], writes);
      i := i + 1;
    }
    assert ks[i..] == [];
    return Ok(lvl);
  }

  /** The write at the end of the walk: `lvl[last] = $merge(lvl[last], val)`
      in merge mode when both are plain objects, `lvl[last] = val` otherwise. */
  method AssignLast(h: Heap, lvl: Value, last: Key, val: Value, merge: Value, ghost d: nat)
    returns (r: Result<Value>, ghost mid: Store)
    requires h.Valid() && ValueIn(h.cells, lvl) && ValueIn(h.cells, val)
    requires var t := Get(h.cells, lvl, last);
             Truthy(merge) && InstObj(h.cells, t) && InstObj(h.cells, val) ==> MergePre(h.cells, t.addr, val.addr, d)
    modifies h
    ensures h.Valid()
    ensures var w := Walked(old(h.cells), old(h.next), lvl);
            && (IsNullish(lvl) ==> r == Err(NoProperties) && h.cells == old(h.cells))
            && (!IsNullish(lvl) && !MergeBranch(w, last, val, merge) ==>
                  r == Ok(val) && h.cells == Put(old(h.cells), lvl, last, val))
            && (MergeBranch(w, last, val, merge) ==>
                  var t := Get(old(h.cells), lvl, last);
                  if InstObj(old(h.cells), t) && InstObj(old(h.cells), val) then
                    r == Ok(t) && Merged(old(h.cells), mid, t.addr, val.addr, d) && h.cells == Put(mid, lvl, last, t)
                  else
                    r == Err(NotMergeable) && h.cells == old(h.cells))
  {
    mid := h.cells;
    if IsNullish(lvl) {
      return Err(NoProperties), mid;
    }
    var t := Get(h.cells, lvl, last);
    if MergeBranch(Walked(h.cells, h.next, lvl), last, val, merge) {
      GetIn(h.cells, lvl, last);
      r, mid := MergeLast(h, lvl, last, t, val, d);
      return;
    }
    var _ := h.Assign(lvl, last, val);
    return Ok(val), mid;
  }

  /** The merge branch of the last step: `lvl[last] = $merge(lvl[last], val)`. */
  method MergeLast(h: Heap, lvl: Value, last: Key, t: Value, val: Value, ghost d: nat)
    returns (r: Result<Value>, ghost mid: Store)
    requires h.Valid() && ValueIn(h.cells, t) && ValueIn(h.cells, val) && !IsNullish(lvl)
    requires InstObj(h.cells, t) && InstObj(h.cells, val) ==> MergePre(h.cells, t.addr, val.addr, d)
    requires TypeOf(h.cells, t) == "Object" && TypeOf(h.cells, val) == "Object"
    modifies h
    ensures h.Valid()
    ensures if InstObj(old(h.cells), t) && InstObj(old(h.cells), val) then
              r == Ok(t) && Merged(old(h.cells), mid, t.addr, val.addr, d) && h.cells == Put(mid, lvl, last, t)
            else
              r == Err(NotMergeable) && h.cells == old(h.cells)
  {
    var m := Merge(h, t, val, d);
    mid := h.cells;
    if m.Err? {
      return m, mid;
    }
    var _ := h.Assign(lvl, last, m.value);
    return Ok(m.value), mid;
  }

  /** `$delimit` with `val` undefined or null: the walk (which writes
      when `val` is null), then `return lvl[last]`. */
  method GetPath(h: Heap, obj: Value, ks: seq<Key>, writes: bool) returns (r: Result<Value>)
    requires h.Valid() && ValueIn(h.cells, obj) && |ks| > 0
    modifies h
    ensures h.Valid()
    ensures var wr := Walk(old(h.cells), old(h.next), obj, Init(ks), writes);
            && r == ReadLast(wr, Last(ks))
            && (wr.Err? ==> r == Err(NoProperties) && h.cells == old(h.cells))
            && (wr.Ok? ==> h.cells == wr.value.h)
    ensures !writes ==>
              && r == Lookup(old(h.cells), obj, ks)
              && old(h.cells).Keys <= h.cells.Keys
              && forall a :: a in old(h.cells) ==> h.cells[a] == old(h.cells)[a]
  {
    ghost var h0, n0 := h.cells, h.next;
    var init, last := ks[..|ks| - 1], ks[|ks| - 1];
    assert ks == init + [last];
    var lvl := WalkPath(h, obj, init, writes);
    if !writes {
      GetModeLookup(h0, n0, obj, init, last);
      ReadOnlyWalk(h0, n0, obj, init);
    }
    if lvl.Err? || IsNullish(lvl.value) {
      return Err(NoProperties);
    }
    return Ok(Get(h.cells, lvl.value, last));
  }

  /** On a path that can be set, a plain write makes the path read back
      `val` and leaves every container off the path as it was. */
  lemma SetThenLookup(h: Store, next: Addr, obj: Value, ks: seq<Key>, val: Value)
    requires WellFormed(h) && FreshFrom(h, next) && ValueIn(h, val)
    requires |ks| > 0 && Settable(h, obj, ks)
    ensures Walk(h, next, obj, Init(ks), true).Ok?
    ensures var w := Walk(h, next, obj, Init(ks), true).value;
            var h1 := Put(w.h, w.lvl, Last(ks), val);
            && !IsNullish(w.lvl)
            && Lookup(h1, obj, ks) == Ok(val)
            && forall a :: a in h && a !in PathAddrs(h, obj, ks) ==> a in h1 && h1[a] == h[a]
  {
    assert ks == Init(ks) + [Last(ks)];
    SetThenGet(h, next, obj, Init(ks), Last(ks), val);
  }

  /** Setting a path of an empty object creates every level on the way. */
  lemma SetOnEmpty(h: Store, next: Addr, a: Addr, ks: seq<Key>, val: Value)
    requires WellFormed(h) && FreshFrom(h, next) && ValueIn(h, val)
    requires |ks| > 0 && a in h && h[a] == EmptyObject()
    ensures Walk(h, next, Ref(a), Init(ks), true).Ok?
    ensures var w := Walk(h, next, Ref(a), Init(ks), true).value;
            var h1 := Put(w.h, w.lvl, Last(ks), val);
            && Lookup(h1, Ref(a), ks) == Ok(val)
            && forall b :: b in h && b != a ==> b in h1 && h1[b] == h[b]
  {
    FreshSettable(h, a, ks);
    SetThenLookup(h, next, Ref(a), ks, val);
  }

  /** `$delimit` with a value to set: the walk, then the write of the last
      segment. */
  method SetPath(h: Heap, obj: Value, ks: seq<Key>, val: Value, merge: Value, ghost d: nat)
    returns (r: Result<Value>, ghost mid: Store)
    requires h.Valid() && ValueIn(h.cells, obj) && ValueIn(h.cells, val) && |ks| > 0 && !IsNullish(val)
    requires SetPre(h.cells, h.next, obj, ks, val, merge, d)
    modifies h
    ensures h.Valid()
    ensures var wr := Walk(old(h.cells), old(h.next), obj, Init(ks), true);
            && (wr.Err? ==> r == Err(NoProperties) && h.cells == old(h.cells))
            && (wr.Ok? ==>
                  var w := wr.value;
                  && (IsNullish(w.lvl) ==> r == Err(NoProperties) && h.cells == w.h)
                  && (!IsNullish(w.lvl) && !MergeBranch(w, Last(ks), val, merge) ==>
                        r == Ok(val) && h.cells == Put(w.h, w.lvl, Last(ks), val))
                  && (MergeBranch(w, Last(ks), val, merge) ==>
                        var t := Get(w.h, w.lvl, Last(ks));
                        if InstObj(w.h, t) && InstObj(w.h, val) then
                          r == Ok(t) && Merged(w.h, mid, t.addr, val.addr, d) && h.cells == Put(mid, w.lvl, Last(ks), t)
                        else
                          r == Err(NotMergeable) && h.cells == w.h))
  {
    mid := h.cells;
    ghost var h0, n0 := h.cells, h.next;
    var init, last := ks[..|ks| - 1], ks[|ks| - 1];
    assert ks == init + [last];
    var lvl := WalkPath(h, obj, init, true);
    if lvl.Err? {
      return Err(NoProperties), mid;
    }
    r, mid := AssignLast(h, lvl.value, last, val, merge, d);
  }

  /** `$delimit(obj, path, val, merge)`: `path` undefined or null yields
      null, a path that is neither a string nor a String object cannot be
      split, and otherwise a get (`val` undefined or null) or a set. `mid`
      is the store right after the nested `$merge`, when the merge branch is
      taken. */
  method Delimit(h: Heap, obj: Value, path: Value, val: Value, merge: Value, ghost d: nat)
    returns (r: Result<Value>, ghost mid: Store)
    requires h.Valid() && ValueIn(h.cells, obj) && ValueIn(h.cells, val)
    requires DelimitPre(h.cells, h.next, obj, path, val, merge, d)
    modifies h
    ensures h.Valid()
    ensures IsNullish(path) ==> r == Ok(Null) && h.cells == old(h.cells)
    ensures !IsNullish(path) && PathText(old(h.cells), path).Err? ==> r == Err(NotSplittable) && h.cells == old(h.cells)
    ensures PathText(old(h.cells), path).Ok? && val.Undefined? ==>
              && r == Lookup(old(h.cells), obj, Segments(PathText(old(h.cells), path).value))
              && old(h.cells).Keys <= h.cells.Keys
              && forall a :: a in old(h.cells) ==> h.cells[a] == old(h.cells)[a]
    ensures PathText(old(h.cells), path).Ok? && val.Null? ==>
              var ks := Segments(PathText(old(h.cells), path).value);
              var wr := Walk(old(h.cells), old(h.next), obj, Init(ks), true);
              r == ReadLast(wr, Last(ks)) && h.cells == (if wr.Ok? then wr.value.h else old(h.cells))
    ensures PathText(old(h.cells), path).Ok? && !IsNullish(val) ==>
              var ks := Segments(PathText(old(h.cells), path).value);
              var wr := Walk(old(h.cells), old(h.next), obj, Init(ks), true);
              && (wr.Err? ==> r == Err(NoProperties) && h.cells == old(h.cells))
              && (wr.Ok? ==>
                    var w := wr.value;
                    && (IsNullish(w.lvl) ==> r == Err(NoProperties) && h.cells == w.h)
                    && (!IsNullish(w.lvl) && !MergeBranch(w, Last(ks), val, merge) ==>
                          r == Ok(val) && h.cells == Put(w.h, w.lvl, Last(ks), val))
                    && (MergeBranch(w, Last(ks), val, merge) ==>
                          var t := Get(w.h, w.lvl, Last(ks));
                          if InstObj(w.h, t) && InstObj(w.h, val) then
                            r == Ok(t) && Merged(w.h, mid, t.addr, val.addr, d) && h.cells == Put(mid, w.lvl, Last(ks), t)
                          else
                            r == Err(NotMergeable) && h.cells == w.h))
    ensures PathText(old(h.cells), path).Ok? && !IsNullish(val) && Settable(old(h.cells), obj, Segments(PathText(old(h.cells), path).value)) ==>
              var ks := Segments(PathText(old(h.cells), path).value);
              var wr := Walk(old(h.cells), old(h.next), obj, Init(ks), true);
              wr.Ok? &&
              (!MergeBranch(wr.value, Last(ks), val, merge) ==>
                 && Lookup(h.cells, obj, ks) == Ok(val)
                 && forall a :: a in old(h.cells) && a !in PathAddrs(old(h.cells), obj, ks) ==>
                      a in h.cells && h.cells[a] == old(h.cells)[a])
  {
    mid := h.cells;
    if IsNullish(path) {
      return Ok(Null), mid;
    }
    var text := PathText(h.cells, path);
    if text.Err? {
      return Err(NotSplittable), mid;
    }
    var ks := Segments(text.value);
    if IsNullish(val) {
      r := GetPath(h, obj, ks, val != Undefined);
    } else {
      ghost var h0, n0 := h.cells, h.next;
      r, mid := SetPath(h, obj, ks, val, merge, d);
      if Settable(h0, obj, ks) {
        SetThenLookup(h0, n0, obj, ks, val);
      }
    }
  }
}
