/** `$clone(obj)`: the breadth-first copy with its two queues.

  `queue1` holds the entries still to be copied (`{node, index}`, a visit),
  `queue2` the copies made so far with the number of entries each still
  expects (`{node, numChildren}`). The entries of a parent are consecutive
  in `queue1`, in the order their parents sit in `queue2`.
 */
module Cloner {
  import opened Keys
  import opened Heaps
  import opened Classifier
  import opened Iterator
  import opened Graphs
  import opened CloneSpec
  import opened CloneState

  /** `simpleClone(obj)`: a function is shared; otherwise
      `new obj.constructor(obj).valueOf()`, which makes a fresh RegExp and
      unwraps everything else. */
  method SimpleClone(h: Heap, v: Value) returns (c: Value)
    requires h.Valid() && ValueIn(h.cells, v) && IsLeaf(h.cells, v)
    modifies h
    ensures h.Valid() && ValueIn(h.cells, c)
    ensures IsRegExp(old(h.cells), v) ==>
              c == Ref(old(h.next)) && h.cells == old(h.cells)[old(h.next) := RegExpCopy(old(h.cells)[v.addr])]
    ensures !IsRegExp(old(h.cells), v) ==> c == LeafValue(old(h.cells), v) && h.cells == old(h.cells)
    ensures LeafCopyOf(old(h.cells), h.cells, v, c)
  {
    var ctor := ClassName(h.cells, v);
    if ctor == "Function" {
      return v;
    }
    if !v.Ref? {
      // new Number(5).valueOf() is 5, and so on for the other primitives.
      return v;
    }
    var cell := h.cells[v.addr];
    assert CellOk(h.cells, cell);
    if ctor == "RegExp" {
      var a := h.Alloc(RegExpCopy(cell));
      return Ref(a);
    } else if ctor == "Boolean" {
      return Bool(true);
    } else {
      return cell.prim;
    }
  }

  /** The callback of the inner `$each`: it only queues, and never returns `false`. */
  function Enqueue(x: Value, k: Key): Value {
    Undefined
  }

  /** The host accessor `item`, which a plain object or an array does not use. */
  function NoItem(i: nat): Value {
    Undefined
  }

  /** Over an array, `$each` visits every position in order. */
  lemma ArrayVisits(h: Store, v: Value)
    requires TypeOf(h, v) == "Array"
    ensures IndexedRun(h, v, Enqueue, NoItem) == Ok(Elements(h, v, NoItem))
    ensures ChildVisits(h, v, Elements(h, v, NoItem))
  {
    var items := Elements(h, v, NoItem);
    assert !Has(h, v, "item");
    UntilStopAll(items, Enqueue);
    KeysOfMembers(items);
    forall k | k in IndexKeys(LengthOf(h, v)) ensures k in KeysOf(items) {
      assert items[k.i].key == k;
    }
  }

  /** Over a plain object, a run that never stops visits every key once. */
  lemma ObjectVisits(h: Store, v: Value, vs: seq<Visit>)
    requires TypeOf(h, v) == "Object" && v.Ref? && v.addr in h
    requires KeyedRun(h, v, h[v.addr], Enqueue, false, vs)
    ensures ChildVisits(h, v, vs)
  {
    assert ChildKeys(h, v) == EnumKeys(h[v.addr], false);
  }

  /** `$each(v, function(child, key) { queue1.push({node: child, index: key}) })`
      on a plain object or an array. */
  method Children(h: Heap, v: Value) returns (vs: seq<Visit>)
    requires ValueIn(h.cells, v) && IsContainer(h.cells, v)
    ensures ChildVisits(h.cells, v, vs)
  {
    var r := Each(h, v, Enqueue, false, NoItem);
    if TypeOf(h.cells, v) == "Array" {
      ArrayVisits(h.cells, v);
    } else {
      ObjectVisits(h.cells, v, r.value);
    }
    vs := r.value;
  }

  /** One entry of the breadth-first copy, as the callback does it for a
      top-level entry and the inner loop for every deeper one: check that
      `x` is simple, queue its entries, make its shallow copy, queue the
      copy as a parent and store it at `target[x.key]`. */
  method ChildStep(h: Heap, ghost h0: Store, x: Visit, target: Value, q1: seq<Visit>, q2: seq<Parent>)
    returns (r: Result<()>, q1': seq<Visit>, q2': seq<Parent>, gk: seq<Visit>)
    requires h.Valid() && Frame(h0, h.cells) && ValueIn(h0, x.value)
    requires target.Ref? && target.addr in h.cells
    modifies h
    ensures h.Valid()
    ensures r.Err? <==> IsSimple(h0, x.value) != Ok(true)
    ensures r.Err? ==> h.cells == old(h.cells) && r.error == (if IsSimple(h0, x.value).Err? then NoProperties else NotCloneable)
    ensures r.Ok? ==>
              && |q2'| == |q2| + 1 && q1' == q1 + gk && q2' == q2 + [Parent(q2'[|q2|].node, |gk|)]
              && var copy := q2'[|q2|].node;
              && (IsLeaf(h0, x.value) ==> gk == [])
              && (!IsLeaf(h0, x.value) ==>
                    && ChildVisits(h0, x.value, gk) && IsContainer(h0, x.value)
                    && copy == Ref(old(h.next))
                    && h.cells == Put(old(h.cells)[old(h.next) := Shell(TypeOf(h0, x.value))], target, x.key, copy))
              && (IsRegExp(h0, x.value) ==>
                    && copy == Ref(old(h.next))
                    && h.cells == Put(old(h.cells)[old(h.next) := RegExpCopy(h0[x.value.addr])], target, x.key, copy))
              && (IsLeaf(h0, x.value) && !IsRegExp(h0, x.value) ==>
                    copy == LeafValue(h0, x.value) && h.cells == Put(old(h.cells), target, x.key, copy))
  {
    SameView(h0, h.cells, x.value);
    q1', q2', gk := q1, q2, [];
    var simple := IsSimple(h.cells, x.value);
    if simple.Err? {
      return Err(NoProperties), q1', q2', gk;
    }
    if !simple.value {
      return Err(NotCloneable), q1', q2', gk;
    }
    var primitive := IsPrimitive(h.cells, x.value).value;
    var numChildren := 0;
    if !primitive {
      gk := Children(h, x.value);
      SameVisits(h0, h.cells, x.value, gk);
      q1' := q1 + gk;
      numChildren := |gk|;
    }
    var copy;
    if primitive {
      copy := SimpleClone(h, x.value);
    } else {
      var a := h.Alloc(Shell(TypeOf(h.cells, x.value)));
      copy := Ref(a);
    }
    q2' := q2 + [Parent(copy, numChildren)];
    var _ := h.Assign(target, x.key, copy);
    r := Ok(());
  }

  /** One turn of `while (count > 0)`: take the next entry off `queue1`,
      copy it and store the copy in the parent's copy `node`. `h1`, `src1`,
      `q21` and `ps1` are the state the loop started from. */
  method FillOne(h: Heap, ghost h0: Store, node: Value, q1: seq<Visit>, q2: seq<Parent>, ghost b: nat,
                 ghost h1: Store, ghost src1: map<Addr, Origin>, ghost q21: seq<Parent>, ghost ps1: seq<Origin>,
                 ghost src: map<Addr, Origin>, ghost done: set<Addr>, ghost ps: seq<Origin>, ghost kids: seq<seq<Visit>>,
                 ghost o: Origin, ghost vs: seq<Visit>, ghost m: nat, ghost left: nat, ghost w: nat, ghost total: nat)
    returns (r: Result<()>, q1': seq<Visit>, q2': seq<Parent>,
             ghost src': map<Addr, Origin>, ghost ps': seq<Origin>, ghost kids': seq<seq<Visit>>)
    requires h.Valid() && WellFormed(h0) && Frame(h0, h.cells) && b == MaxWidth(h0, h0.Keys) && node.Ref?
    requires Looping(h0, h1, h.cells, src1, q21, ps1, src, done, q2, ps, kids, q1, o, node.addr, vs, m, left, w, total, b)
    requires left > 0
    modifies h
    ensures h.Valid() && Frame(h0, h.cells)
    ensures r.Err? ==> r.error == NoProperties || r.error == NotCloneable
    ensures Cloneable(h0, o.v, o.e) ==> r.Ok?
    ensures r.Ok? ==> Looping(h0, h1, h.cells, src1, q21, ps1, src', done, q2', ps', kids', q1', o, node.addr, vs, m + 1, left - 1, w, total, b)
    ensures r.Ok? ==> Cloneable(h0, o.v, o.e) && AllCloneable(h0, ps) ==> AllCloneable(h0, ps')
  {
    src', ps', kids' := src, ps, kids;
    var child := q1[0];
    q1' := q1[1..];
    assert child == vs[m];
    ghost var c, hb, n := node.addr, h.cells, h.next;
    ChildFacts(h0, hb, c, o, vs, m, src);
    if Cloneable(h0, o.v, o.e) {
      assert Cloneable(h0, child.value, o.e - 1);
    }
    var gk;
    r, q1', q2', gk := ChildStep(h, h0, child, node, q1', q2);
    if r.Err? {
      return;
    }
    ghost var copy := q2'[|q2|].node;
    assert Stepped(h0, hb, h.cells, n, c, child, copy);
    src', ps', kids' := Recorded(h0, src, n, child.value, o.e - 1), ps + [Origin(child.value, o.e - 1)], kids + [gk];
    FillTurn(h0, h1, hb, h.cells, n, c, copy, gk, b, src1, src, src', done, q21, ps1,
             q2, ps, kids, q1, q2', ps', kids', q1', o, vs, m, left, w, total);
  }

  /** `while (count > 0)` for a container copy `node` expecting `count > 0` entries. */
  method FillEntries(h: Heap, ghost h0: Store, node: Value, count: nat, q1: seq<Visit>, q2: seq<Parent>,
                     ghost src: map<Addr, Origin>, ghost done: set<Addr>, ghost ps: seq<Origin>, ghost kids: seq<seq<Visit>>,
                     ghost o: Origin, ghost vs: seq<Visit>, ghost b: nat)
    returns (r: Result<()>, q1': seq<Visit>, q2': seq<Parent>,
             ghost src': map<Addr, Origin>, ghost ps': seq<Origin>, ghost kids': seq<seq<Visit>>)
    requires h.Valid() && WellFormed(h0) && Frame(h0, h.cells) && b == MaxWidth(h0, h0.Keys)
    requires Pending(h0, h.cells, src, done, q2, ps, kids)
    requires EntryOk(h0, h.cells, src, done, Parent(node, count), o, vs) && q1 == vs + Flatten(kids)
    requires count > 0 && node.addr !in Opened(h0, q2, ps)
    modifies h
    ensures h.Valid() && Frame(h0, h.cells)
    ensures r.Err? ==> r.error == NoProperties || r.error == NotCloneable
    ensures AllCloneable(h0, ps) && Cloneable(h0, o.v, o.e) ==> r.Ok? && AllCloneable(h0, ps')
    ensures r.Ok? ==> Refilled(h0, old(h.cells), h.cells, src, src', done, q2, ps, kids, q1', q2', ps', kids', node, o, count, b)
  {
    ghost var w := Weight(b, o.e - 1);
    ghost var total := QWeight(b, ps, kids) + Owed(count, w);
    FillStart(h0, h.cells, src, done, q2, ps, kids, q1, node, o, vs, w, total, b);
    q1', q2', src', ps', kids' := q1, q2, src, ps, kids;
    r := Ok(());
    var left := count;
    ghost var m := 0;
    while left > 0
      invariant h.Valid() && Frame(h0, h.cells) && r.Ok?
      invariant Looping(h0, old(h.cells), h.cells, src, q2, ps, src', done, q2', ps', kids', q1', o, node.addr, vs, m, left, w, total, b)
      invariant AllCloneable(h0, ps) && Cloneable(h0, o.v, o.e) ==> AllCloneable(h0, ps')
    {
      r, q1', q2', src', ps', kids' := FillOne(h, h0, node, q1', q2', b, old(h.cells), src, q2, ps,
                                              src', done, ps', kids', o, vs, m, left, w, total);
      if r.Err? {
        return;
      }
      m, left := m + 1, left - 1;
    }
    FillDone(h0, old(h.cells), h.cells, src, src', done, q2, ps, kids, q1', q2', ps', kids', node, o, vs, b, w);
  }

  /** `var count = parent.numChildren; var node = parent.node; while (count > 0) ...`:
      the entries of one parent's copy, taken off the front of `queue1` and
      copied into it. */
  method FillParent(h: Heap, ghost h0: Store, node: Value, count: nat, q1: seq<Visit>, q2: seq<Parent>,
                    ghost src: map<Addr, Origin>, ghost done: set<Addr>, ghost ps: seq<Origin>, ghost kids: seq<seq<Visit>>,
                    ghost o: Origin, ghost vs: seq<Visit>, ghost b: nat)
    returns (r: Result<()>, q1': seq<Visit>, q2': seq<Parent>,
             ghost src': map<Addr, Origin>, ghost ps': seq<Origin>, ghost kids': seq<seq<Visit>>)
    requires h.Valid() && WellFormed(h0) && Frame(h0, h.cells) && b == MaxWidth(h0, h0.Keys)
    requires Pending(h0, h.cells, src, done, q2, ps, kids)
    requires EntryOk(h0, h.cells, src, done, Parent(node, count), o, vs) && q1 == vs + Flatten(kids)
    requires !IsLeaf(h0, o.v) ==> node.addr !in Opened(h0, q2, ps)
    modifies h
    ensures h.Valid() && Frame(h0, h.cells)
    ensures r.Err? ==> r.error == NoProperties || r.error == NotCloneable
    ensures AllCloneable(h0, ps) && Cloneable(h0, o.v, o.e) ==> r.Ok? && AllCloneable(h0, ps')
    ensures r.Ok? ==> Refilled(h0, old(h.cells), h.cells, src, src', done, q2, ps, kids, q1', q2', ps', kids', node, o, count, b)
  {
    if count == 0 {
      // A leaf's copy, or an empty container's, expects no entries.
      FillNone(h0, h.cells, src, done, q2, ps, kids, q1, node, o, vs, b);
      return Ok(()), q1, q2, src, ps, kids;
    }
    r, q1', q2', src', ps', kids' := FillEntries(h, h0, node, count, q1, q2, src, done, ps, kids, o, vs, b);
  }

  /** `while (parent = queue2.shift()) { ... }`: fill every queued copy,
      taking each parent's entries off the front of `queue1`. The loop ends
      when `queue2` is empty, since every entry of `queue2` is an object. */
  method Drain(h: Heap, ghost h0: Store, q1: seq<Visit>, q2: seq<Parent>,
               ghost src: map<Addr, Origin>, ghost done: set<Addr>, ghost ps: seq<Origin>, ghost kids: seq<seq<Visit>>,
               ghost o: Origin, ghost c: Addr, ghost vs: seq<Visit>, ghost m: nat, ghost b: nat)
    returns (r: Result<()>, ghost src': map<Addr, Origin>, ghost done': set<Addr>)
    requires h.Valid() && WellFormed(h0) && Frame(h0, h.cells) && b == MaxWidth(h0, h0.Keys)
    requires Draining(h0, h.cells, src, done, q2, ps, kids, q1, o, c, vs, m)
    modifies h
    ensures h.Valid() && Frame(h0, h.cells)
    ensures r.Err? ==> r.error == NoProperties || r.error == NotCloneable
    ensures AllCloneable(h0, ps) ==> r.Ok?
    ensures r.Ok? ==> Draining(h0, h.cells, src', done', [], [], [], [], o, c, vs, m)
  {
    var queue1, queue2 := q1, q2;
    ghost var ps', kids' := ps, kids;
    src', done' := src, done;
    r := Ok(());
    while queue2 != []
      invariant h.Valid() && Frame(h0, h.cells) && r.Ok?
      invariant Draining(h0, h.cells, src', done', queue2, ps', kids', queue1, o, c, vs, m)
      invariant AllCloneable(h0, ps) ==> AllCloneable(h0, ps')
      decreases QWeight(b, ps', kids')
    {
      DrainPop(h0, h.cells, src', done', queue2, ps', kids', queue1, o, c, vs, m, b);
      ghost var hb, srcb, q2b, psb, kidsb := h.cells, src', queue2, ps', kids';
      var parent := queue2[0];
      queue2 := queue2[1..];
      var q1'', q2'';
      ghost var ps'', kids'';
      r, q1'', q2'', src', ps'', kids'' := FillParent(h, h0, parent.node, parent.numChildren, queue1, queue2,
                                                     srcb, done', psb[1..], kidsb[1..], psb[0], kidsb[0], b);
      if r.Err? {
        return;
      }
      DrainTurn(h0, hb, h.cells, srcb, src', done', q2b, psb, kidsb, queue1, q1'', q2'', ps'', kids'', o, c, vs, m, b);
      done' := Finished(h0, done', q2b[0], psb[0]);
      queue1, queue2, ps', kids' := q1'', q2'', ps'', kids'';
    }
    assert ps' == [] && kids' == [] && queue1 == [];
  }

  /** The callback of the outer `$each` for the root `vs[m]`: check it,
      queue its entries, copy it into `ret` and queue its copy. */
  method RootOne(h: Heap, ghost h0: Store, ret: Addr, root: Visit, ghost b: nat,
                 ghost src: map<Addr, Origin>, ghost done: set<Addr>, ghost o: Origin, ghost vs: seq<Visit>, ghost m: nat)
    returns (r: Result<()>, q1: seq<Visit>, q2: seq<Parent>,
             ghost src': map<Addr, Origin>, ghost ps: seq<Origin>, ghost kids: seq<seq<Visit>>)
    requires h.Valid() && WellFormed(h0) && Frame(h0, h.cells) && b == MaxWidth(h0, h0.Keys)
    requires Filling(h0, h.cells, src, done, [], [], [], o, ret, vs, m) && src.Keys == done + {ret}
    requires m < |vs| && root == vs[m]
    modifies h
    ensures h.Valid() && Frame(h0, h.cells)
    ensures r.Err? ==> r.error == NoProperties || r.error == NotCloneable
    ensures Cloneable(h0, o.v, o.e) ==> r.Ok? && AllCloneable(h0, ps)
    ensures r.Ok? ==> Draining(h0, h.cells, src', done, q2, ps, kids, q1, o, ret, vs, m + 1)
  {
    src', ps, kids := src, [], [];
    ghost var hb, n := h.cells, h.next;
    ChildFacts(h0, hb, ret, o, vs, m, src);
    if Cloneable(h0, o.v, o.e) {
      assert Cloneable(h0, root.value, o.e - 1);
    }
    var gk;
    r, q1, q2, gk := ChildStep(h, h0, root, Ref(ret), [], []);
    if r.Err? {
      return;
    }
    ghost var copy := q2[0].node;
    assert Stepped(h0, hb, h.cells, n, ret, root, copy);
    src', ps, kids := Recorded(h0, src, n, root.value, o.e - 1), [Origin(root.value, o.e - 1)], [gk];
    RootStep(h0, hb, h.cells, n, ret, copy, gk, b, src, src', done, q2, ps, kids, q1, o, vs, m);
  }

  /** `$each(obj, function(root, key) { ... })`: the callback for every
      entry of `obj` in turn, each followed by draining both queues. */
  method CopyRoots(h: Heap, ghost h0: Store, ret: Addr, roots: seq<Visit>, ghost b: nat,
                   ghost src: map<Addr, Origin>, ghost done: set<Addr>, ghost o: Origin)
    returns (r: Result<()>, ghost src': map<Addr, Origin>, ghost done': set<Addr>)
    requires h.Valid() && WellFormed(h0) && Frame(h0, h.cells) && b == MaxWidth(h0, h0.Keys)
    requires Filling(h0, h.cells, src, done, [], [], [], o, ret, roots, 0) && src.Keys == done + {ret}
    modifies h
    ensures h.Valid() && Frame(h0, h.cells)
    ensures r.Err? ==> r.error == NoProperties || r.error == NotCloneable
    ensures Cloneable(h0, o.v, o.e) ==> r.Ok?
    ensures r.Ok? ==> Filling(h0, h.cells, src', done', [], [], [], o, ret, roots, |roots|) && src'.Keys == done' + {ret}
  {
    src', done' := src, done;
    r := Ok(());
    var m := 0;
    while m < |roots|
      invariant h.Valid() && Frame(h0, h.cells) && m <= |roots| && r.Ok?
      invariant Filling(h0, h.cells, src', done', [], [], [], o, ret, roots, m) && src'.Keys == done' + {ret}
    {
      var q1, q2;
      ghost var src'', ps, kids;
      r, q1, q2, src'', ps, kids := RootOne(h, h0, ret, roots[m], b, src', done', o, roots, m);
      if r.Err? {
        return;
      }
      r, src', done' := Drain(h, h0, q1, q2, src'', done', ps, kids, o, ret, roots, m + 1, b);
      if r.Err? {
        return;
      }
      DrainEnd(h0, h.cells, src', done', o, ret, roots, m + 1);
      m := m + 1;
    }
  }

  /** `$clone(obj)`: a deep copy of `obj`, whose copied entries must form
      chains of at most `E` steps (on a cycle through them the source never
      stops). It
      throws exactly when some value met is neither simple nor a leaf, or is
      undefined or null. */
  method Clone(h: Heap, obj: Value, ghost E: nat) returns (r: Result<Value>)
    requires h.Valid() && ValueIn(h.cells, obj) && CloneBounded(h.cells, obj, E)
    modifies h
    ensures h.Valid() && Frame(old(h.cells), h.cells)
    ensures IsNullish(obj) ==> r == Err(NoProperties)
    ensures !IsNullish(obj) && IsSimple(old(h.cells), obj) == Ok(false) ==> r == Err(NotCloneable)
    ensures r.Err? ==> r.error == NoProperties || r.error == NotCloneable
    ensures r.Ok? <==> Cloneable(old(h.cells), obj, E + 1)
    ensures r.Ok? ==> DeepCopy(old(h.cells), h.cells, obj, r.value, E + 1)
  {
    ghost var h0 := h.cells;
    var primitive := IsPrimitive(h.cells, obj);
    if primitive.Err? {
      return Err(NoProperties);
    }
    if primitive.value {
      var c := SimpleClone(h, obj);
      DeepCopyCloneable(h0, h.cells, obj, c, E + 1);
      return Ok(c);
    }
    var t := TypeOf(h.cells, obj);
    if t != "Object" && t != "Array" {
      return Err(NotCloneable);
    }
    r := CloneContainer(h, obj, t, E);
  }

  /** The part of `$clone(obj)` past its checks: `ret` is `{}` or `[]`, and
      the callback fills it. */
  method CloneContainer(h: Heap, obj: Value, t: string, ghost E: nat) returns (r: Result<Value>)
    requires h.Valid() && ValueIn(h.cells, obj) && CloneBounded(h.cells, obj, E)
    requires !IsLeaf(h.cells, obj) && t == TypeOf(h.cells, obj) && (t == "Object" || t == "Array")
    modifies h
    ensures h.Valid() && Frame(old(h.cells), h.cells)
    ensures r.Err? ==> r.error == NoProperties || r.error == NotCloneable
    ensures Cloneable(old(h.cells), obj, E + 1) ==> r.Ok?
    ensures r.Ok? ==> DeepCopy(old(h.cells), h.cells, obj, r.value, E + 1) && Cloneable(old(h.cells), obj, E + 1)
  {
    ghost var h0 := h.cells;
    ShellOk(h.cells, t);
    var ret := h.Alloc(Shell(t));
    SameView(h0, h.cells, obj);
    var roots := Children(h, obj);
    SameVisits(h0, h.cells, obj, roots);
    ghost var o := Origin(obj, E + 1);
    CloneStart(h0, h.cells, ret, obj, E + 1, roots);
    var step;
    ghost var src, done;
    step, src, done := CopyRoots(h, h0, ret, roots, MaxWidth(h0, h0.Keys), map[ret := o], {}, o);
    if step.Err? {
      return Err(step.error);
    }
    CloneDone(h0, h.cells, src, done, obj, E + 1, ret, roots);
    return Ok(Ref(ret));
  }
}
