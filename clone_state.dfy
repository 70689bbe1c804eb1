/** The state of the breadth-first copy of `$clone` and the invariants that
  tie it to the specification: which copies exist, what each stands for, and
  what the two queues still owe.
 */
module CloneState {
  import opened Keys
  import opened Heaps
  import opened Classifier
  import opened Iterator
  import opened Graphs
  import opened CloneSpec

  /** An entry of `queue2`. */
  datatype Parent = Parent(node: Value, numChildren: nat)

  /** Where a copy comes from: the source value and its budget. */
  datatype Origin = Origin(v: Value, e: nat)

  /** The empty copy `$clone` makes of a plain object or an array. */
  function Shell(t: string): Cell {
    if t == "Object" then EmptyObject() else EmptyArray()
  }

  /** The source containers are never written. */
  predicate Frame(h0: Store, h: Store) {
    h0.Keys <= h.Keys && forall a :: a in h0 ==> h[a] == h0[a]
  }

  /** Every function of a value reads only that value's container, which
      the clone leaves alone. */
  lemma SameView(h0: Store, h: Store, v: Value)
    requires Frame(h0, h) && ValueIn(h0, v)
    ensures TypeOf(h, v) == TypeOf(h0, v) && IsSimple(h, v) == IsSimple(h0, v)
    ensures IsPrimitive(h, v) == IsPrimitive(h0, v) && IsRegExp(h, v) == IsRegExp(h0, v)
    ensures LeafValue(h, v) == LeafValue(h0, v)
    ensures forall k :: Get(h, v, k) == Get(h0, v, k)
  {
    if v.Ref? {
      assert h[v.addr] == h0[v.addr];
    }
    SameType(h0, h, v);
  }

  lemma SameType(h0: Store, h: Store, v: Value)
    requires Frame(h0, h) && ValueIn(h0, v)
    ensures TypeOf(h, v) == TypeOf(h0, v)
  {
    if v.Ref? {
      assert h[v.addr] == h0[v.addr];
    }
    assert Has(h, v, "getElementById") == Has(h0, v, "getElementById");
    assert Has(h, v, "all") == Has(h0, v, "all");
    assert Has(h, v, "item") == Has(h0, v, "item");
    assert Has(h, v, "callee") == Has(h0, v, "callee");
    assert Has(h, v, "nodeType") == Has(h0, v, "nodeType");
  }

  lemma SameKeys(h0: Store, h: Store, v: Value)
    requires Frame(h0, h) && ValueIn(h0, v)
    ensures ChildKeys(h, v) == ChildKeys(h0, v)
  {
    SameView(h0, h, v);
    if v.Ref? {
      assert h[v.addr] == h0[v.addr];
    }
  }

  lemma SameVisits(h0: Store, h: Store, v: Value, vs: seq<Visit>)
    requires Frame(h0, h) && ValueIn(h0, v) && ChildVisits(h, v, vs)
    ensures ChildVisits(h0, v, vs)
  {
    SameView(h0, h, v);
    SameKeys(h0, h, v);
  }

  // ---------------------------------------------------------------------------
  // What the copies made so far stand for.

  /** `cv` is the copy of the entry `x` of budget `e`: a leaf's copy as
      `simpleClone` makes it, or a copy that is recorded as standing for `x`. */
  predicate ChildCopy(h0: Store, h: Store, src: map<Addr, Origin>, x: Value, cv: Value, e: nat) {
    && IsSimple(h0, x) == Ok(true)
    && if IsLeaf(h0, x) then LeafCopyOf(h0, h, x, cv) && (IsRegExp(h0, x) ==> cv.addr !in src)
       else cv.Ref? && cv.addr in src && src[cv.addr] == Origin(x, e)
  }

  /** A container copy made for `o`. */
  predicate CopyOf(h0: Store, o: Origin, cell: Cell) {
    && ValueIn(h0, o.v) && IsSimple(h0, o.v) == Ok(true) && !IsLeaf(h0, o.v)
    && Budgeted(h0, o.v, o.e) && ShellOf(h0, o.v, cell)
  }

  /** Every container copy is fresh and shaped after its source. */
  predicate SrcOk(h0: Store, h: Store, src: map<Addr, Origin>) {
    forall c :: c in src ==> c in h && c !in h0 && CopyOf(h0, src[c], h[c])
  }

  /** The entries already stored in the copy `c` are copies of the source's. */
  predicate EntriesOk(h0: Store, h: Store, src: map<Addr, Origin>, c: Addr)
    requires c in src && c in h
  {
    src[c].e > 0 && forall k :: k in h[c].own ==> ChildCopy(h0, h, src, Get(h0, src[c].v, k), h[c].own[k], src[c].e - 1)
  }

  /** The copy `c` has all its entries. */
  predicate Complete(h0: Store, h: Store, src: map<Addr, Origin>, c: Addr) {
    && c in src && c in h
    && h[c].own.Keys == ChildKeys(h0, src[c].v) && h[c].len == CopyLength(h0, src[c].v)
    && EntriesOk(h0, h, src, c)
  }

  /** The copy `c` has the first `m` of the entries `vs`. */
  predicate Filled(h0: Store, h: Store, src: map<Addr, Origin>, c: Addr, vs: seq<Visit>, m: nat) {
    && c in src && c in h && m <= |vs|
    && h[c].own.Keys == KeysOf(vs[..m]) && h[c].len == (if TypeOf(h0, src[c].v) == "Array" then m else 0)
    && EntriesOk(h0, h, src, c)
  }

  predicate DoneOk(h0: Store, h: Store, src: map<Addr, Origin>, done: set<Addr>) {
    done <= src.Keys && forall c :: c in done ==> Complete(h0, h, src, c)
  }

  /** An entry of `queue2` with the entries `ks` it still expects: a leaf
      expects none; a container copy is still empty and not done. */
  predicate EntryOk(h0: Store, h: Store, src: map<Addr, Origin>, done: set<Addr>, q: Parent, o: Origin, ks: seq<Visit>) {
    && ValueIn(h0, o.v) && IsSimple(h0, o.v) == Ok(true) && Budgeted(h0, o.v, o.e) && |ks| == q.numChildren
    && if IsLeaf(h0, o.v) then ks == []
       else
         && q.node.Ref? && q.node.addr in src && q.node.addr !in done && src[q.node.addr] == o
         && q.node.addr in h && h[q.node.addr].own == map[] && h[q.node.addr].len == 0
         && ChildVisits(h0, o.v, ks)
  }

  /** The container copies waiting in `queue2`. */
  function Opened(h0: Store, q2: seq<Parent>, ps: seq<Origin>): set<Addr>
    requires |ps| == |q2|
  {
    set j | 0 <= j < |q2| && !IsLeaf(h0, ps[j].v) && q2[j].node.Ref? :: q2[j].node.addr
  }

  /** `queue2`, with the source `ps[j]` and the entries `kids[j]` of each parent. */
  predicate QueueOk(h0: Store, h: Store, src: map<Addr, Origin>, done: set<Addr>,
                    q2: seq<Parent>, ps: seq<Origin>, kids: seq<seq<Visit>>) {
    && |ps| == |q2| && |kids| == |q2|
    && (forall j :: 0 <= j < |q2| ==> EntryOk(h0, h, src, done, q2[j], ps[j], kids[j]))
    && (forall i, j :: 0 <= i < j < |q2| && !IsLeaf(h0, ps[i].v) && !IsLeaf(h0, ps[j].v) ==> q2[i].node != q2[j].node)
  }

  /** `queue1` is the entries of the parents in `queue2`, one parent after another. */
  function Flatten(kids: seq<seq<Visit>>): seq<Visit> {
    if kids == [] then [] else kids[0] + Flatten(kids[1..])
  }

  function EntryWeight(b: nat, e: nat, n: nat): nat {
    if e == 0 then 1 else 1 + n * Weight(b, e - 1)
  }

  /** What the queued parents and their entries weigh. */
  function QWeight(b: nat, ps: seq<Origin>, kids: seq<seq<Visit>>): nat
    requires |kids| == |ps|
  {
    if ps == [] then 0 else EntryWeight(b, ps[0].e, |kids[0]|) + QWeight(b, ps[1..], kids[1..])
  }

  predicate AllCloneable(h0: Store, ps: seq<Origin>) {
    forall j :: 0 <= j < |ps| ==> Cloneable(h0, ps[j].v, ps[j].e)
  }

  /** From `h` to `h'` only copies are written and only fresh copies are added. */
  predicate Grows(h: Store, h': Store, src: map<Addr, Origin>, src': map<Addr, Origin>) {
    && h.Keys <= h'.Keys
    && (forall a :: a in src ==> a in src' && src'[a] == src[a])
    && (forall a :: a in src' && a !in src ==> a !in h)
    && (forall a :: a in h && a !in src ==> h'[a] == h[a])
  }

  // ---------------------------------------------------------------------------
  // Lemmas about the queues.

  lemma {:induction false} FlattenSnoc(kids: seq<seq<Visit>>, ks: seq<Visit>)
    ensures Flatten(kids + [ks]) == Flatten(kids) + ks
  {
    if kids != [] {
      assert (kids + [ks])[1..] == kids[1..] + [ks];
      FlattenSnoc(kids[1..], ks);
    }
  }

  lemma {:induction false} QWeightSnoc(b: nat, ps: seq<Origin>, kids: seq<seq<Visit>>, o: Origin, ks: seq<Visit>)
    requires |kids| == |ps|
    ensures QWeight(b, ps + [o], kids + [ks]) == QWeight(b, ps, kids) + EntryWeight(b, o.e, |ks|)
  {
    if ps != [] {
      assert (ps + [o])[1..] == ps[1..] + [o];
      assert (kids + [ks])[1..] == kids[1..] + [ks];
      QWeightSnoc(b, ps[1..], kids[1..], o, ks);
    }
  }

  lemma OpenedSnoc(h0: Store, q2: seq<Parent>, ps: seq<Origin>, q: Parent, o: Origin)
    requires |ps| == |q2|
    ensures Opened(h0, q2 + [q], ps + [o]) == Opened(h0, q2, ps) + (if !IsLeaf(h0, o.v) && q.node.Ref? then {q.node.addr} else {})
  {
    var q2', ps' := q2 + [q], ps + [o];
    forall a | a in Opened(h0, q2', ps') ensures a in Opened(h0, q2, ps) || (!IsLeaf(h0, o.v) && q.node.Ref? && a == q.node.addr) {
      var j :| 0 <= j < |q2'| && !IsLeaf(h0, ps'[j].v) && q2'[j].node.Ref? && q2'[j].node.addr == a;
      if j < |q2| {
        assert q2[j] == q2'[j] && ps[j] == ps'[j];
      }
    }
    forall a | a in Opened(h0, q2, ps) ensures a in Opened(h0, q2', ps') {
      var j :| 0 <= j < |q2| && !IsLeaf(h0, ps[j].v) && q2[j].node.Ref? && q2[j].node.addr == a;
      assert q2[j] == q2'[j] && ps[j] == ps'[j];
    }
    if !IsLeaf(h0, o.v) && q.node.Ref? {
      assert q2'[|q2|] == q && ps'[|q2|] == o;
    }
  }

  lemma OpenedDrop(h0: Store, q2: seq<Parent>, ps: seq<Origin>)
    requires |ps| == |q2| && q2 != []
    ensures Opened(h0, q2, ps) == Opened(h0, q2[1..], ps[1..]) + (if !IsLeaf(h0, ps[0].v) && q2[0].node.Ref? then {q2[0].node.addr} else {})
  {
    var q2', ps' := q2[1..], ps[1..];
    forall a | a in Opened(h0, q2, ps) ensures a in Opened(h0, q2', ps') || (!IsLeaf(h0, ps[0].v) && q2[0].node.Ref? && a == q2[0].node.addr) {
      var j :| 0 <= j < |q2| && !IsLeaf(h0, ps[j].v) && q2[j].node.Ref? && q2[j].node.addr == a;
      if j > 0 {
        assert q2'[j - 1] == q2[j] && ps'[j - 1] == ps[j];
      }
    }
    forall a | a in Opened(h0, q2', ps') ensures a in Opened(h0, q2, ps) {
      var j :| 0 <= j < |q2'| && !IsLeaf(h0, ps'[j].v) && q2'[j].node.Ref? && q2'[j].node.addr == a;
      assert q2'[j] == q2[j + 1] && ps'[j] == ps[j + 1];
    }
  }

  // ---------------------------------------------------------------------------
  // Lemmas about the store.

  lemma GrowsTrans(h1: Store, h2: Store, h3: Store, s1: map<Addr, Origin>, s2: map<Addr, Origin>, s3: map<Addr, Origin>)
    requires Grows(h1, h2, s1, s2) && Grows(h2, h3, s2, s3)
    ensures Grows(h1, h3, s1, s3)
  {
  }

  /** What a copy stands for survives writes to other copies and new copies. */
  lemma ChildCopyStable(h0: Store, h: Store, h': Store, src: map<Addr, Origin>, src': map<Addr, Origin>, x: Value, cv: Value, e: nat)
    requires Grows(h, h', src, src') && ChildCopy(h0, h, src, x, cv, e)
    ensures ChildCopy(h0, h', src', x, cv, e)
  {
  }

  /** A copy that was not written keeps its entries. */
  lemma EntriesStable(h0: Store, h: Store, h': Store, src: map<Addr, Origin>, src': map<Addr, Origin>, c: Addr)
    requires Grows(h, h', src, src') && c in src && c in h && h'[c] == h[c] && EntriesOk(h0, h, src, c)
    ensures EntriesOk(h0, h', src', c)
  {
    var o, own := src[c], h[c].own;
    assert src'[c] == o && h'[c].own == own;
    forall k | k in own
      ensures ChildCopy(h0, h', src', Get(h0, o.v, k), own[k], o.e - 1)
    {
      assert ChildCopy(h0, h, src, Get(h0, o.v, k), own[k], o.e - 1);
      ChildCopyStable(h0, h, h', src, src', Get(h0, o.v, k), own[k], o.e - 1);
    }
  }

  /** Copies that were not written stay done. */
  lemma DoneStable(h0: Store, h: Store, h': Store, src: map<Addr, Origin>, src': map<Addr, Origin>, done: set<Addr>)
    requires Grows(h, h', src, src') && DoneOk(h0, h, src, done)
    requires forall c :: c in done ==> h'[c] == h[c]
    ensures DoneOk(h0, h', src', done)
  {
    forall c | c in done ensures Complete(h0, h', src', c) {
      EntriesStable(h0, h, h', src, src', c);
    }
  }

  /** Queued copies that were not written stay queued. */
  lemma QueueStable(h0: Store, h: Store, h': Store, src: map<Addr, Origin>, src': map<Addr, Origin>, done: set<Addr>,
                    q2: seq<Parent>, ps: seq<Origin>, kids: seq<seq<Visit>>)
    requires Grows(h, h', src, src') && QueueOk(h0, h, src, done, q2, ps, kids)
    requires forall c :: c in Opened(h0, q2, ps) ==> h'[c] == h[c]
    ensures QueueOk(h0, h', src', done, q2, ps, kids)
  {
    forall j | 0 <= j < |q2| ensures EntryOk(h0, h', src', done, q2[j], ps[j], kids[j]) {
      assert EntryOk(h0, h, src, done, q2[j], ps[j], kids[j]);
      if !IsLeaf(h0, ps[j].v) {
        assert q2[j].node.addr in Opened(h0, q2, ps);
      }
    }
  }

  /** A filled copy with all its entries is complete. */
  lemma FilledComplete(h0: Store, h: Store, src: map<Addr, Origin>, c: Addr, vs: seq<Visit>)
    requires Filled(h0, h, src, c, vs, |vs|) && ChildVisits(h0, src[c].v, vs)
    ensures Complete(h0, h, src, c)
  {
    assert vs[..|vs|] == vs;
    if TypeOf(h0, src[c].v) == "Array" {
      KeysOfCard(vs);
      IndexKeysCard(LengthOf(h0, src[c].v));
    }
  }

  /** When every copy is complete, each is a deep copy of its source. */
  lemma {:induction false} CompleteDeep(h0: Store, h: Store, src: map<Addr, Origin>, c: Addr, e: nat)
    requires SrcOk(h0, h, src) && forall d :: d in src ==> Complete(h0, h, src, d)
    requires c in src && src[c].e == e
    ensures DeepCopy(h0, h, src[c].v, Ref(c), e)
    decreases e
  {
    var v := src[c].v;
    assert Complete(h0, h, src, c) && CopyOf(h0, src[c], h[c]);
    var own := h[c].own;
    forall k | k in ChildKeys(h0, v) ensures DeepCopy(h0, h, Get(h0, v, k), own[k], e - 1) {
      var x := Get(h0, v, k);
      assert ChildCopy(h0, h, src, x, own[k], e - 1);
      if !IsLeaf(h0, x) {
        CompleteDeep(h0, h, src, own[k].addr, e - 1);
      }
    }
  }

  // ---------------------------------------------------------------------------
  // One entry copied into its parent's copy.

  /** Whether copying `x` allocates: a shallow copy, or a fresh RegExp. */
  predicate Allocates(h0: Store, x: Value) {
    !IsLeaf(h0, x) || IsRegExp(h0, x)
  }

  function NewCell(h0: Store, x: Value): Cell {
    if IsRegExp(h0, x) then RegExpCopy(h0[x.addr]) else Shell(TypeOf(h0, x))
  }

  /** The store `h'` after the entry `x` is copied, with `n` the next free
      address, and the copy stored at `c[x.key]`. */
  predicate Stepped(h0: Store, h: Store, h': Store, n: Addr, c: Addr, x: Visit, copy: Value) {
    if Allocates(h0, x.value) then copy == Ref(n) && h' == Put(h[n := NewCell(h0, x.value)], Ref(c), x.key, copy)
    else copy == LeafValue(h0, x.value) && h' == Put(h, Ref(c), x.key, copy)
  }

  /** The copies after `x`, of budget `e`, is copied: a container copy is recorded. */
  function Recorded(h0: Store, src: map<Addr, Origin>, n: Addr, x: Value, e: nat): map<Addr, Origin> {
    if IsLeaf(h0, x) then src else src[n := Origin(x, e)]
  }

  /** What one step writes. */
  lemma StepCells(h0: Store, h: Store, h': Store, n: Addr, c: Addr, x: Visit, copy: Value)
    requires c in h && n !in h && Stepped(h0, h, h', n, c, x, copy)
    ensures h'.Keys == h.Keys + (if Allocates(h0, x.value) then {n} else {})
    ensures forall a :: a in h && a != c ==> h'[a] == h[a]
    ensures h'[c] == SetProp(h[c], x.key, copy)
    ensures Allocates(h0, x.value) ==> h'[n] == NewCell(h0, x.value)
  {
  }

  lemma StepGrows(h0: Store, h: Store, h': Store, n: Addr, c: Addr, x: Visit, copy: Value, src: map<Addr, Origin>, e: nat)
    requires c in src && src.Keys <= h.Keys && n !in h && Stepped(h0, h, h', n, c, x, copy)
    ensures Grows(h, h', src, Recorded(h0, src, n, x.value, e))
  {
    StepCells(h0, h, h', n, c, x, copy);
  }

  /** The new entry stored in `c` is a copy of `x`. */
  lemma StepCopy(h0: Store, h: Store, h': Store, n: Addr, c: Addr, x: Visit, copy: Value, src: map<Addr, Origin>, e: nat)
    requires c in h && src.Keys <= h.Keys && h0.Keys <= h.Keys && n !in h && Stepped(h0, h, h', n, c, x, copy)
    requires IsSimple(h0, x.value) == Ok(true)
    ensures ChildCopy(h0, h', Recorded(h0, src, n, x.value, e), x.value, copy, e)
  {
    StepCells(h0, h, h', n, c, x, copy);
  }

  /** The copies stay fresh and shaped after their sources. */
  lemma StepSrcOk(h0: Store, h: Store, h': Store, n: Addr, c: Addr, x: Visit, copy: Value, src: map<Addr, Origin>, e: nat)
    requires SrcOk(h0, h, src) && h0.Keys <= h.Keys && c in src && n !in h && Stepped(h0, h, h', n, c, x, copy)
    requires ValueIn(h0, x.value) && IsSimple(h0, x.value) == Ok(true) && Budgeted(h0, x.value, e)
    ensures SrcOk(h0, h', Recorded(h0, src, n, x.value, e))
  {
    StepCells(h0, h, h', n, c, x, copy);
    var src' := Recorded(h0, src, n, x.value, e);
    forall d | d in src' ensures d in h' && d !in h0 && CopyOf(h0, src'[d], h'[d]) {
      if d in src {
        assert CopyOf(h0, src[d], h[d]);
        if d == c {
          SetPropCopy(h0, src[d], h[d], x.key, copy);
        }
      } else {
        NewCopy(h0, x.value, e);
      }
    }
  }

  /** Storing an entry keeps a copy's shape. */
  lemma SetPropCopy(h0: Store, o: Origin, cell: Cell, k: Key, v: Value)
    requires CopyOf(h0, o, cell)
    ensures CopyOf(h0, o, SetProp(cell, k, v))
  {
  }

  /** The fresh container made for a simple non-leaf value has its shape. */
  lemma NewCopy(h0: Store, x: Value, e: nat)
    requires ValueIn(h0, x) && IsSimple(h0, x) == Ok(true) && !IsLeaf(h0, x) && Budgeted(h0, x, e)
    ensures CopyOf(h0, Origin(x, e), NewCell(h0, x))
  {
    SimpleContainer(h0, x);
  }

  /** Storing the entry `vs[m]` in a copy holding the first `m` entries. */
  lemma GainKey(cell: Cell, vs: seq<Visit>, m: nat, copy: Value, arr: bool)
    requires m < |vs| && cell.own.Keys == KeysOf(vs[..m]) && cell.len == (if arr then m else 0)
    requires cell.cls == (if arr then "Array" else "Object")
    requires arr ==> vs[m].key == Index(m)
    ensures SetProp(cell, vs[m].key, copy).own.Keys == KeysOf(vs[..m + 1])
    ensures SetProp(cell, vs[m].key, copy).len == (if arr then m + 1 else 0)
    ensures SetProp(cell, vs[m].key, copy).own == cell.own[vs[m].key := copy]
  {
    assert vs[..m + 1][..m] == vs[..m];
  }

  /** Distinct keys: the entry `vs[m]` is not among the first `m`. */
  lemma NewKey(vs: seq<Visit>, m: nat)
    requires m < |vs| && forall i, j :: 0 <= i < j < |vs| ==> vs[i].key != vs[j].key
    ensures vs[m].key !in KeysOf(vs[..m])
  {
    KeysOfMembers(vs[..m]);
  }

  /** The parent's copy gains the entry `vs[m]`. */
  lemma StepFilled(h0: Store, h: Store, h': Store, n: Addr, c: Addr, vs: seq<Visit>, m: nat, copy: Value, src: map<Addr, Origin>)
    requires SrcOk(h0, h, src) && h0.Keys <= h.Keys && n !in h
    requires Filled(h0, h, src, c, vs, m) && m < |vs| && ChildVisits(h0, src[c].v, vs)
    requires Stepped(h0, h, h', n, c, vs[m], copy) && IsSimple(h0, vs[m].value) == Ok(true)
    ensures Filled(h0, h', Recorded(h0, src, n, vs[m].value, src[c].e - 1), c, vs, m + 1)
  {
    var x, o, e := vs[m], src[c], src[c].e - 1;
    var src' := Recorded(h0, src, n, x.value, e);
    StepCells(h0, h, h', n, c, x, copy);
    assert CopyOf(h0, o, h[c]);
    SimpleContainer(h0, o.v);
    var arr := TypeOf(h0, o.v) == "Array";
    GainKey(h[c], vs, m, copy, arr);
    StepEntries(h0, h, h', n, c, vs, m, copy, src);
  }

  lemma StepEntries(h0: Store, h: Store, h': Store, n: Addr, c: Addr, vs: seq<Visit>, m: nat, copy: Value, src: map<Addr, Origin>)
    requires src.Keys <= h.Keys && h0.Keys <= h.Keys && n !in h
    requires Filled(h0, h, src, c, vs, m) && m < |vs| && ChildVisits(h0, src[c].v, vs)
    requires Stepped(h0, h, h', n, c, vs[m], copy) && IsSimple(h0, vs[m].value) == Ok(true)
    requires h'[c].own == h[c].own[vs[m].key := copy]
    ensures EntriesOk(h0, h', Recorded(h0, src, n, vs[m].value, src[c].e - 1), c)
  {
    var x, o, e := vs[m], src[c], src[c].e - 1;
    var src' := Recorded(h0, src, n, x.value, e);
    StepCells(h0, h, h', n, c, x, copy);
    StepGrows(h0, h, h', n, c, x, copy, src, e);
    StepCopy(h0, h, h', n, c, x, copy, src, e);
    NewKey(vs, m);
    var own, own' := h[c].own, h'[c].own;
    assert src'[c] == o;
    assert Get(h0, o.v, x.key) == x.value;
    forall k | k in own' ensures ChildCopy(h0, h', src', Get(h0, o.v, k), own'[k], e) {
      if k != x.key {
        assert ChildCopy(h0, h, src, Get(h0, o.v, k), own[k], e);
        ChildCopyStable(h0, h, h', src, src', Get(h0, o.v, k), own[k], e);
      }
    }
  }

  /** The finished copies stay finished. */
  lemma StepDone(h0: Store, h: Store, h': Store, n: Addr, c: Addr, x: Visit, copy: Value,
                 src: map<Addr, Origin>, e: nat, done: set<Addr>)
    requires DoneOk(h0, h, src, done) && c !in done && c in src && src.Keys <= h.Keys && n !in h
    requires Stepped(h0, h, h', n, c, x, copy)
    ensures DoneOk(h0, h', Recorded(h0, src, n, x.value, e), done)
  {
    StepCells(h0, h, h', n, c, x, copy);
    StepGrows(h0, h, h', n, c, x, copy, src, e);
    DoneStable(h0, h, h', src, Recorded(h0, src, n, x.value, e), done);
  }

  /** The copy of `x` joins `queue2`, expecting the entries `gk`. */
  lemma StepQueue(h0: Store, h: Store, h': Store, n: Addr, c: Addr, x: Visit, copy: Value, src: map<Addr, Origin>, e: nat,
                  done: set<Addr>, q2: seq<Parent>, ps: seq<Origin>, kids: seq<seq<Visit>>, gk: seq<Visit>,
                  src': map<Addr, Origin>, q2': seq<Parent>, ps': seq<Origin>, kids': seq<seq<Visit>>)
    requires QueueOk(h0, h, src, done, q2, ps, kids) && done <= src.Keys && c in src && c !in Opened(h0, q2, ps)
    requires src.Keys <= h.Keys && n !in h && Stepped(h0, h, h', n, c, x, copy)
    requires ValueIn(h0, x.value) && IsSimple(h0, x.value) == Ok(true) && Budgeted(h0, x.value, e)
    requires if IsLeaf(h0, x.value) then gk == [] else ChildVisits(h0, x.value, gk)
    requires src' == Recorded(h0, src, n, x.value, e) && q2' == q2 + [Parent(copy, |gk|)]
    requires ps' == ps + [Origin(x.value, e)] && kids' == kids + [gk]
    ensures QueueOk(h0, h', src', done, q2', ps', kids')
  {
    var q, o := Parent(copy, |gk|), Origin(x.value, e);
    StepCells(h0, h, h', n, c, x, copy);
    StepGrows(h0, h, h', n, c, x, copy, src, e);
    forall a | a in Opened(h0, q2, ps) ensures h'[a] == h[a] {
      var j :| 0 <= j < |q2| && !IsLeaf(h0, ps[j].v) && q2[j].node.Ref? && q2[j].node.addr == a;
      assert EntryOk(h0, h, src, done, q2[j], ps[j], kids[j]);
    }
    QueueStable(h0, h, h', src, src', done, q2, ps, kids);
    if !IsLeaf(h0, x.value) {
      SimpleContainer(h0, x.value);
      assert EntryOk(h0, h', src', done, q, o, gk);
    }
    QueueSnoc(h0, h', src', done, q2, ps, kids, q, o, gk);
  }

  /** Appending an entry whose copy, if a container, lies outside every queued one. */
  lemma QueueSnoc(h0: Store, h: Store, src: map<Addr, Origin>, done: set<Addr>,
                  q2: seq<Parent>, ps: seq<Origin>, kids: seq<seq<Visit>>, q: Parent, o: Origin, ks: seq<Visit>)
    requires QueueOk(h0, h, src, done, q2, ps, kids) && EntryOk(h0, h, src, done, q, o, ks)
    requires !IsLeaf(h0, o.v) ==> q.node.Ref? && q.node.addr !in Opened(h0, q2, ps)
    ensures QueueOk(h0, h, src, done, q2 + [q], ps + [o], kids + [ks])
  {
    var q2', ps', kids' := q2 + [q], ps + [o], kids + [ks];
    forall j | 0 <= j < |q2'| ensures EntryOk(h0, h, src, done, q2'[j], ps'[j], kids'[j]) {
      if j < |q2| {
        assert q2'[j] == q2[j] && ps'[j] == ps[j] && kids'[j] == kids[j];
      }
    }
    forall i, j | 0 <= i < j < |q2'| && !IsLeaf(h0, ps'[i].v) && !IsLeaf(h0, ps'[j].v) ensures q2'[i].node != q2'[j].node {
      assert q2'[i] == q2[i] && ps'[i] == ps[i];
      if j == |q2| {
        assert EntryOk(h0, h, src, done, q2[i], ps[i], kids[i]);
        assert q2[i].node.addr in Opened(h0, q2, ps);
      } else {
        assert q2'[j] == q2[j] && ps'[j] == ps[j];
      }
    }
  }

  /** A queued entry of budget `e` weighs more than the parent it turns into. */
  lemma StepWeight(h0: Store, x: Value, e: nat, gk: seq<Visit>, b: nat)
    requires b == MaxWidth(h0, h0.Keys) && ValueIn(h0, x) && IsSimple(h0, x) == Ok(true) && Budgeted(h0, x, e)
    requires if IsLeaf(h0, x) then gk == [] else ChildVisits(h0, x, gk)
    ensures EntryWeight(b, e, |gk|) < Weight(b, e)
  {
    if e > 0 {
      if !IsLeaf(h0, x) {
        SimpleContainer(h0, x);
        VisitCount(h0, x, gk);
      }
      WeightPays(b, e, |gk|);
    }
  }

  /** Taking the first parent off `queue2`. */
  lemma PopQueue(h0: Store, h: Store, src: map<Addr, Origin>, done: set<Addr>,
                 q2: seq<Parent>, ps: seq<Origin>, kids: seq<seq<Visit>>, b: nat)
    requires QueueOk(h0, h, src, done, q2, ps, kids) && q2 != []
    ensures QueueOk(h0, h, src, done, q2[1..], ps[1..], kids[1..])
    ensures EntryOk(h0, h, src, done, q2[0], ps[0], kids[0])
    ensures !IsLeaf(h0, ps[0].v) ==> q2[0].node.addr !in Opened(h0, q2[1..], ps[1..])
    ensures Opened(h0, q2, ps) == Opened(h0, q2[1..], ps[1..]) + (if IsLeaf(h0, ps[0].v) then {} else {q2[0].node.addr})
    ensures Flatten(kids) == kids[0] + Flatten(kids[1..])
    ensures QWeight(b, ps, kids) == EntryWeight(b, ps[0].e, |kids[0]|) + QWeight(b, ps[1..], kids[1..])
  {
    var q2', ps', kids' := q2[1..], ps[1..], kids[1..];
    forall j | 0 <= j < |q2'| ensures EntryOk(h0, h, src, done, q2'[j], ps'[j], kids'[j]) {
      assert q2'[j] == q2[j + 1] && ps'[j] == ps[j + 1] && kids'[j] == kids[j + 1];
    }
    forall i, j | 0 <= i < j < |q2'| && !IsLeaf(h0, ps'[i].v) && !IsLeaf(h0, ps'[j].v) ensures q2'[i].node != q2'[j].node {
      assert q2'[i] == q2[i + 1] && ps'[i] == ps[i + 1];
      assert q2'[j] == q2[j + 1] && ps'[j] == ps[j + 1];
    }
    assert EntryOk(h0, h, src, done, q2[0], ps[0], kids[0]);
    if !IsLeaf(h0, ps[0].v) {
      forall a | a in Opened(h0, q2', ps') ensures a != q2[0].node.addr {
        var j :| 0 <= j < |q2'| && !IsLeaf(h0, ps'[j].v) && q2'[j].node.Ref? && q2'[j].node.addr == a;
        assert q2'[j] == q2[j + 1] && ps'[j] == ps[j + 1];
      }
    }
    OpenedDrop(h0, q2, ps);
  }

  /** Writing only copies leaves the source containers alone. */
  lemma FrameGrows(h0: Store, h: Store, h': Store, src: map<Addr, Origin>, src': map<Addr, Origin>)
    requires Frame(h0, h) && Grows(h, h', src, src') && SrcOk(h0, h, src)
    ensures Frame(h0, h')
  {
  }

  /** The copies and the queue are in order. */
  predicate Pending(h0: Store, h: Store, src: map<Addr, Origin>, done: set<Addr>,
                    q2: seq<Parent>, ps: seq<Origin>, kids: seq<seq<Visit>>) {
    SrcOk(h0, h, src) && DoneOk(h0, h, src, done) && QueueOk(h0, h, src, done, q2, ps, kids)
  }

  /** The copy `c` of `o` holds the first `m` of its entries `vs`; it is
      neither finished nor queued. */
  predicate Filling(h0: Store, h: Store, src: map<Addr, Origin>, done: set<Addr>,
                    q2: seq<Parent>, ps: seq<Origin>, kids: seq<seq<Visit>>, o: Origin, c: Addr, vs: seq<Visit>, m: nat) {
    && Pending(h0, h, src, done, q2, ps, kids)
    && c in src && src[c] == o && c !in done && c !in Opened(h0, q2, ps)
    && Filled(h0, h, src, c, vs, m) && ChildVisits(h0, o.v, vs)
  }

  /** Only the cell `c` is written. */
  predicate Touched(h: Store, h': Store, c: Addr) {
    h.Keys <= h'.Keys && forall a :: a in h && a != c ==> h'[a] == h[a]
  }

  /** One turn of the inner loop of `$clone` keeps its invariant, and the
      weight of the queues drops by at least what the entry weighed. */
  lemma FillStep(h0: Store, h: Store, h': Store, n: Addr, c: Addr, copy: Value, gk: seq<Visit>, b: nat,
                 src: map<Addr, Origin>, done: set<Addr>, q2: seq<Parent>, ps: seq<Origin>, kids: seq<seq<Visit>>,
                 o: Origin, vs: seq<Visit>, m: nat)
    requires WellFormed(h0) && Frame(h0, h) && n !in h && b == MaxWidth(h0, h0.Keys)
    requires Filling(h0, h, src, done, q2, ps, kids, o, c, vs, m) && m < |vs|
    requires Stepped(h0, h, h', n, c, vs[m], copy) && IsSimple(h0, vs[m].value) == Ok(true)
    requires if IsLeaf(h0, vs[m].value) then gk == [] else ChildVisits(h0, vs[m].value, gk)
    ensures var x, e := vs[m].value, o.e - 1;
            var src', ps', kids' := Recorded(h0, src, n, x, e), ps + [Origin(x, e)], kids + [gk];
            var q2' := q2 + [Parent(copy, |gk|)];
            && Filling(h0, h', src', done, q2', ps', kids', o, c, vs, m + 1)
            && Grows(h, h', src, src') && Frame(h0, h') && Touched(h, h', c)
            && Opened(h0, q2', ps') == Opened(h0, q2, ps) + (src'.Keys - src.Keys)
            && QWeight(b, ps', kids') < QWeight(b, ps, kids) + Weight(b, e)
            && (Cloneable(h0, o.v, o.e) && AllCloneable(h0, ps) ==> AllCloneable(h0, ps'))
  {
    var x, e := vs[m].value, o.e - 1;
    var src' := Recorded(h0, src, n, x, e);
    ChildFacts(h0, h, c, o, vs, m, src);
    StepCells(h0, h, h', n, c, vs[m], copy);
    StepGrows(h0, h, h', n, c, vs[m], copy, src, e);
    FrameGrows(h0, h, h', src, src');
    FillPending(h0, h, h', n, c, copy, gk, src, done, q2, ps, kids, o, vs, m,
                src', q2 + [Parent(copy, |gk|)], ps + [Origin(x, e)], kids + [gk]);
    OpenedStep(h0, q2, ps, copy, |gk|, src, n, x, e);
    FillCopy(h0, h, h', n, c, copy, gk, src, done, q2, ps, kids, o, vs, m);
    FillMeasure(h0, gk, b, ps, kids, x, e);
    if Cloneable(h0, o.v, o.e) && AllCloneable(h0, ps) {
      FillCloneable(h0, ps, o, vs[m].key);
    }
  }

  /** What the entry `vs[m]` of the copy `c` of `o` is. */
  lemma ChildFacts(h0: Store, h: Store, c: Addr, o: Origin, vs: seq<Visit>, m: nat, src: map<Addr, Origin>)
    requires WellFormed(h0) && SrcOk(h0, h, src) && c in src && src[c] == o && ChildVisits(h0, o.v, vs) && m < |vs|
    ensures Get(h0, o.v, vs[m].key) == vs[m].value && vs[m].key in ChildKeys(h0, o.v)
    ensures o.e > 0 && ValueIn(h0, vs[m].value) && Budgeted(h0, vs[m].value, o.e - 1)
  {
    assert CopyOf(h0, o, h[c]);
    GetIn(h0, o.v, vs[m].key);
    ChildBudget(h0, o.v, o.e, vs[m].key);
  }

  lemma FillPending(h0: Store, h: Store, h': Store, n: Addr, c: Addr, copy: Value, gk: seq<Visit>,
                    src: map<Addr, Origin>, done: set<Addr>, q2: seq<Parent>, ps: seq<Origin>, kids: seq<seq<Visit>>,
                    o: Origin, vs: seq<Visit>, m: nat,
                    src': map<Addr, Origin>, q2': seq<Parent>, ps': seq<Origin>, kids': seq<seq<Visit>>)
    requires WellFormed(h0) && Frame(h0, h) && n !in h
    requires Filling(h0, h, src, done, q2, ps, kids, o, c, vs, m) && m < |vs|
    requires Stepped(h0, h, h', n, c, vs[m], copy) && IsSimple(h0, vs[m].value) == Ok(true)
    requires if IsLeaf(h0, vs[m].value) then gk == [] else ChildVisits(h0, vs[m].value, gk)
    requires src' == Recorded(h0, src, n, vs[m].value, o.e - 1) && q2' == q2 + [Parent(copy, |gk|)]
    requires ps' == ps + [Origin(vs[m].value, o.e - 1)] && kids' == kids + [gk]
    ensures Pending(h0, h', src', done, q2', ps', kids')
  {
    var x, e := vs[m].value, o.e - 1;
    ChildFacts(h0, h, c, o, vs, m, src);
    StepSrcOk(h0, h, h', n, c, vs[m], copy, src, e);
    StepDone(h0, h, h', n, c, vs[m], copy, src, e, done);
    StepQueue(h0, h, h', n, c, vs[m], copy, src, e, done, q2, ps, kids, gk, src', q2', ps', kids');
  }

  /** A container copy is queued exactly when it is recorded. */
  lemma OpenedStep(h0: Store, q2: seq<Parent>, ps: seq<Origin>, copy: Value, k: nat, src: map<Addr, Origin>, n: Addr, x: Value, e: nat)
    requires |ps| == |q2| && n !in src && (!IsLeaf(h0, x) ==> copy == Ref(n))
    ensures Opened(h0, q2 + [Parent(copy, k)], ps + [Origin(x, e)])
            == Opened(h0, q2, ps) + (Recorded(h0, src, n, x, e).Keys - src.Keys)
  {
    OpenedSnoc(h0, q2, ps, Parent(copy, k), Origin(x, e));
    assert Recorded(h0, src, n, x, e).Keys - src.Keys == if IsLeaf(h0, x) then {} else {n};
  }

  lemma FillCopy(h0: Store, h: Store, h': Store, n: Addr, c: Addr, copy: Value, gk: seq<Visit>,
                 src: map<Addr, Origin>, done: set<Addr>, q2: seq<Parent>, ps: seq<Origin>, kids: seq<seq<Visit>>,
                 o: Origin, vs: seq<Visit>, m: nat)
    requires WellFormed(h0) && Frame(h0, h) && n !in h
    requires Filling(h0, h, src, done, q2, ps, kids, o, c, vs, m) && m < |vs|
    requires Stepped(h0, h, h', n, c, vs[m], copy) && IsSimple(h0, vs[m].value) == Ok(true)
    requires Opened(h0, q2 + [Parent(copy, |gk|)], ps + [Origin(vs[m].value, o.e - 1)])
             == Opened(h0, q2, ps) + (Recorded(h0, src, n, vs[m].value, o.e - 1).Keys - src.Keys)
    ensures var src' := Recorded(h0, src, n, vs[m].value, o.e - 1);
            && c in src' && src'[c] == o && c !in done
            && c !in Opened(h0, q2 + [Parent(copy, |gk|)], ps + [Origin(vs[m].value, o.e - 1)])
            && Filled(h0, h', src', c, vs, m + 1)
  {
    StepFilled(h0, h, h', n, c, vs, m, copy, src);
  }

  lemma FillMeasure(h0: Store, gk: seq<Visit>, b: nat, ps: seq<Origin>, kids: seq<seq<Visit>>, x: Value, e: nat)
    requires b == MaxWidth(h0, h0.Keys) && |kids| == |ps|
    requires ValueIn(h0, x) && Budgeted(h0, x, e) && IsSimple(h0, x) == Ok(true)
    requires if IsLeaf(h0, x) then gk == [] else ChildVisits(h0, x, gk)
    ensures QWeight(b, ps + [Origin(x, e)], kids + [gk]) < QWeight(b, ps, kids) + Weight(b, e)
  {
    StepWeight(h0, x, e, gk, b);
    QWeightSnoc(b, ps, kids, Origin(x, e), gk);
  }

  lemma FillCloneable(h0: Store, ps: seq<Origin>, o: Origin, k: Key)
    requires !IsLeaf(h0, o.v) && k in ChildKeys(h0, o.v)
    requires Cloneable(h0, o.v, o.e) && AllCloneable(h0, ps)
    ensures AllCloneable(h0, ps + [Origin(Get(h0, o.v, k), o.e - 1)])
  {
    var ps' := ps + [Origin(Get(h0, o.v, k), o.e - 1)];
    forall j | 0 <= j < |ps'| ensures Cloneable(h0, ps'[j].v, ps'[j].e) {
      if j < |ps| {
        assert ps'[j] == ps[j];
      }
    }
  }

  /** The copies queued so far are the copies recorded so far. */
  lemma OpenedAccum(o0: set<Addr>, o1: set<Addr>, o2: set<Addr>, s0: set<Addr>, s1: set<Addr>, s2: set<Addr>)
    requires o1 == o0 + (s1 - s0) && o2 == o1 + (s2 - s1) && s0 <= s1 <= s2
    ensures o2 == o0 + (s2 - s0)
  {
  }

  /** What `k` entries of weight `w` weigh. */
  function Owed(k: nat, w: nat): nat {
    k * w
  }

  /** What one more entry of weight `w` pays. */
  lemma PayOne(q: nat, q': nat, left: nat, w: nat, total: nat)
    requires left > 0 && q + Owed(left, w) <= total && q' < q + w
    ensures q' + Owed(left - 1, w) <= total
  {
    assert left * w == (left - 1) * w + w;
  }

  /** With nothing left, the parent's weight pays for what it queued. */
  lemma PayAll(q: nat, q0: nat, count: nat, b: nat, e: nat)
    requires e > 0 && q <= q0 + Owed(count, Weight(b, e - 1))
    ensures q < q0 + EntryWeight(b, e, count)
  {
  }

  /** `queue1` after its first entry is taken and `gk` is queued. */
  lemma QueueShift(vs: seq<Visit>, m: nat, kids: seq<seq<Visit>>, gk: seq<Visit>, q1: seq<Visit>)
    requires m < |vs| && q1 == (vs[m..] + Flatten(kids))[1..] + gk
    ensures q1 == vs[m + 1..] + Flatten(kids + [gk])
  {
    FlattenSnoc(kids, gk);
    assert (vs[m..] + Flatten(kids))[1..] == vs[m + 1..] + Flatten(kids);
  }

  /** The state of the inner loop after `m` of the entries `vs` of the
      copy `c` are in place and `left` remain: `h1`, `src1`, `q21` and `ps1`
      are where the loop started, `total` what it may spend. */
  predicate Looping(h0: Store, h1: Store, h: Store, src1: map<Addr, Origin>, q21: seq<Parent>, ps1: seq<Origin>,
                    src: map<Addr, Origin>, done: set<Addr>, q2: seq<Parent>, ps: seq<Origin>, kids: seq<seq<Visit>>,
                    q1: seq<Visit>, o: Origin, c: Addr, vs: seq<Visit>, m: nat, left: nat, w: nat, total: nat, b: nat)
  {
    && Grows(h1, h, src1, src) && Touched(h1, h, c)
    && Filling(h0, h, src, done, q2, ps, kids, o, c, vs, m) && left == |vs| - m
    && q1 == vs[m..] + Flatten(kids)
    && |q21| == |ps1| && Opened(h0, q2, ps) == Opened(h0, q21, ps1) + (src.Keys - src1.Keys)
    && o.e > 0 && w == Weight(b, o.e - 1) && QWeight(b, ps, kids) + Owed(left, w) <= total
  }

  /** One turn of the inner loop, from the store `h` before the turn to `h'` after it. */
  lemma FillTurn(h0: Store, h1: Store, h: Store, h': Store, n: Addr, c: Addr, copy: Value, gk: seq<Visit>, b: nat,
                 src1: map<Addr, Origin>, src: map<Addr, Origin>, src': map<Addr, Origin>, done: set<Addr>,
                 q21: seq<Parent>, ps1: seq<Origin>,
                 q2: seq<Parent>, ps: seq<Origin>, kids: seq<seq<Visit>>, q1: seq<Visit>,
                 q2': seq<Parent>, ps': seq<Origin>, kids': seq<seq<Visit>>, q1': seq<Visit>,
                 o: Origin, vs: seq<Visit>, m: nat, left: nat, w: nat, total: nat)
    requires WellFormed(h0) && Frame(h0, h) && n !in h && b == MaxWidth(h0, h0.Keys)
    requires Looping(h0, h1, h, src1, q21, ps1, src, done, q2, ps, kids, q1, o, c, vs, m, left, w, total, b) && left > 0
    requires Stepped(h0, h, h', n, c, vs[m], copy) && IsSimple(h0, vs[m].value) == Ok(true)
    requires if IsLeaf(h0, vs[m].value) then gk == [] else ChildVisits(h0, vs[m].value, gk)
    requires src' == Recorded(h0, src, n, vs[m].value, o.e - 1) && q2' == q2 + [Parent(copy, |gk|)]
    requires ps' == ps + [Origin(vs[m].value, o.e - 1)] && kids' == kids + [gk] && q1' == q1[1..] + gk
    ensures Looping(h0, h1, h', src1, q21, ps1, src', done, q2', ps', kids', q1', o, c, vs, m + 1, left - 1, w, total, b)
    ensures Frame(h0, h')
    ensures Cloneable(h0, o.v, o.e) && AllCloneable(h0, ps) ==> AllCloneable(h0, ps')
  {
    FillStep(h0, h, h', n, c, copy, gk, b, src, done, q2, ps, kids, o, vs, m);
    GrowsTrans(h1, h, h', src1, src, src');
    OpenedAccum(Opened(h0, q21, ps1), Opened(h0, q2, ps), Opened(h0, q2', ps'), src1.Keys, src.Keys, src'.Keys);
    PayOne(QWeight(b, ps, kids), QWeight(b, ps', kids'), left, w, total);
    QueueShift(vs, m, kids, gk, q1');
  }

  /** What the copy of one parent leaves behind, stated for `FillParent`. */
  predicate Refilled(h0: Store, h1: Store, h: Store, src: map<Addr, Origin>, src': map<Addr, Origin>, done: set<Addr>,
                     q2: seq<Parent>, ps: seq<Origin>, kids: seq<seq<Visit>>,
                     q1': seq<Visit>, q2': seq<Parent>, ps': seq<Origin>, kids': seq<seq<Visit>>,
                     node: Value, o: Origin, count: nat, b: nat)
    requires |q2| == |ps| && |ps| == |kids|
  {
    && Grows(h1, h, src, src')
    && (IsLeaf(h0, o.v) ==> h == h1)
    && (!IsLeaf(h0, o.v) ==> node.Ref? && Touched(h1, h, node.addr) && Complete(h0, h, src', node.addr))
    && Pending(h0, h, src', done, q2', ps', kids') && q1' == Flatten(kids')
    && Opened(h0, q2', ps') == Opened(h0, q2, ps) + (src'.Keys - src.Keys)
    && QWeight(b, ps', kids') < QWeight(b, ps, kids) + EntryWeight(b, o.e, count)
  }

  /** A parent that expects no entries leaves everything as it was. */
  lemma FillNone(h0: Store, h: Store, src: map<Addr, Origin>, done: set<Addr>,
                 q2: seq<Parent>, ps: seq<Origin>, kids: seq<seq<Visit>>, q1: seq<Visit>, node: Value, o: Origin, vs: seq<Visit>, b: nat)
    requires Pending(h0, h, src, done, q2, ps, kids)
    requires EntryOk(h0, h, src, done, Parent(node, 0), o, vs) && q1 == vs + Flatten(kids)
    ensures Refilled(h0, h, h, src, src, done, q2, ps, kids, q1, q2, ps, kids, node, o, 0, b)
  {
    if !IsLeaf(h0, o.v) {
      assert CopyOf(h0, o, h[node.addr]);
      FilledComplete(h0, h, src, node.addr, vs);
    }
    assert src.Keys - src.Keys == {};
  }

  /** The loop over a parent's entries starts from its empty copy. */
  lemma FillStart(h0: Store, h: Store, src: map<Addr, Origin>, done: set<Addr>,
                  q2: seq<Parent>, ps: seq<Origin>, kids: seq<seq<Visit>>, q1: seq<Visit>, node: Value, o: Origin, vs: seq<Visit>,
                  w: nat, total: nat, b: nat)
    requires Pending(h0, h, src, done, q2, ps, kids)
    requires EntryOk(h0, h, src, done, Parent(node, |vs|), o, vs) && q1 == vs + Flatten(kids) && |vs| > 0
    requires node.addr !in Opened(h0, q2, ps)
    requires w == Weight(b, o.e - 1) && total == QWeight(b, ps, kids) + Owed(|vs|, w)
    ensures !IsLeaf(h0, o.v) && node.Ref?
    ensures Looping(h0, h, h, src, q2, ps, src, done, q2, ps, kids, q1, o, node.addr, vs, 0, |vs|, w, total, b)
  {
    assert CopyOf(h0, o, h[node.addr]);
    assert vs[..0] == [] && vs[0..] == vs;
    assert src.Keys - src.Keys == {};
  }

  /** The loop over a parent's entries ends with its copy complete. */
  lemma FillDone(h0: Store, h1: Store, h: Store, src: map<Addr, Origin>, src': map<Addr, Origin>, done: set<Addr>,
                 q2: seq<Parent>, ps: seq<Origin>, kids: seq<seq<Visit>>,
                 q1': seq<Visit>, q2': seq<Parent>, ps': seq<Origin>, kids': seq<seq<Visit>>,
                 node: Value, o: Origin, vs: seq<Visit>, b: nat, w: nat)
    requires node.Ref? && !IsLeaf(h0, o.v) && |q2| == |ps| && |ps| == |kids|
    requires Looping(h0, h1, h, src, q2, ps, src', done, q2', ps', kids', q1', o, node.addr, vs, |vs|, 0, w,
                     QWeight(b, ps, kids) + Owed(|vs|, w), b)
    ensures Refilled(h0, h1, h, src, src', done, q2, ps, kids, q1', q2', ps', kids', node, o, |vs|, b)
  {
    assert vs[|vs|..] == [];
    PayAll(QWeight(b, ps', kids'), QWeight(b, ps, kids), |vs|, b, o.e);
    FilledComplete(h0, h, src', node.addr, vs);
  }

  // ---------------------------------------------------------------------------
  // The loop over `queue2`.

  /** While `queue2` drains, the copy `c` of `o` has the first `m` of its
      entries `vs`, and every other copy is finished or queued. */
  predicate Draining(h0: Store, h: Store, src: map<Addr, Origin>, done: set<Addr>,
                     q2: seq<Parent>, ps: seq<Origin>, kids: seq<seq<Visit>>, q1: seq<Visit>,
                     o: Origin, c: Addr, vs: seq<Visit>, m: nat) {
    && Filling(h0, h, src, done, q2, ps, kids, o, c, vs, m)
    && q1 == Flatten(kids) && src.Keys == done + Opened(h0, q2, ps) + {c}
  }

  /** The copies finished once the parent `q` of `o` is filled. */
  function Finished(h0: Store, done: set<Addr>, q: Parent, o: Origin): set<Addr> {
    if IsLeaf(h0, o.v) || !q.node.Ref? then done else done + {q.node.addr}
  }

  /** `parent = queue2.shift()`: what filling the first parent may assume. */
  lemma DrainPop(h0: Store, h: Store, src: map<Addr, Origin>, done: set<Addr>,
                 q2: seq<Parent>, ps: seq<Origin>, kids: seq<seq<Visit>>, q1: seq<Visit>,
                 o: Origin, c: Addr, vs: seq<Visit>, m: nat, b: nat)
    requires Draining(h0, h, src, done, q2, ps, kids, q1, o, c, vs, m) && q2 != []
    ensures |ps| == |q2| && |kids| == |q2|
    ensures Pending(h0, h, src, done, q2[1..], ps[1..], kids[1..])
    ensures EntryOk(h0, h, src, done, Parent(q2[0].node, q2[0].numChildren), ps[0], kids[0])
    ensures q1 == kids[0] + Flatten(kids[1..])
    ensures !IsLeaf(h0, ps[0].v) ==> q2[0].node.addr !in Opened(h0, q2[1..], ps[1..])
    ensures AllCloneable(h0, ps) ==> AllCloneable(h0, ps[1..]) && Cloneable(h0, ps[0].v, ps[0].e)
  {
    PopQueue(h0, h, src, done, q2, ps, kids, b);
    assert Parent(q2[0].node, q2[0].numChildren) == q2[0];
    if AllCloneable(h0, ps) {
      forall j | 0 <= j < |ps[1..]| ensures Cloneable(h0, ps[1..][j].v, ps[1..][j].e) {
        assert ps[1..][j] == ps[j + 1];
      }
    }
  }

  /** Queued copies are not finished, so finishing one that is not queued keeps the queue in order. */
  lemma QueueDone(h0: Store, h: Store, src: map<Addr, Origin>, done: set<Addr>,
                  q2: seq<Parent>, ps: seq<Origin>, kids: seq<seq<Visit>>, a: Addr)
    requires QueueOk(h0, h, src, done, q2, ps, kids) && a !in Opened(h0, q2, ps)
    ensures QueueOk(h0, h, src, done + {a}, q2, ps, kids)
  {
    forall j | 0 <= j < |q2| ensures EntryOk(h0, h, src, done + {a}, q2[j], ps[j], kids[j]) {
      assert EntryOk(h0, h, src, done, q2[j], ps[j], kids[j]);
      if !IsLeaf(h0, ps[j].v) {
        assert q2[j].node.addr in Opened(h0, q2, ps);
      }
    }
  }

  /** The copy being filled at the top level is not written while `queue2` drains. */
  lemma FilledStable(h0: Store, h: Store, h': Store, src: map<Addr, Origin>, src': map<Addr, Origin>,
                     c: Addr, vs: seq<Visit>, m: nat)
    requires Grows(h, h', src, src') && Filled(h0, h, src, c, vs, m) && h'[c] == h[c]
    ensures Filled(h0, h', src', c, vs, m)
  {
    EntriesStable(h0, h, h', src, src', c);
  }

  /** One turn of `while (parent = queue2.shift())` keeps the loop's invariant
      and lowers the weight of the queues. */
  lemma DrainTurn(h0: Store, h: Store, h': Store, src: map<Addr, Origin>, src': map<Addr, Origin>, done: set<Addr>,
                  q2: seq<Parent>, ps: seq<Origin>, kids: seq<seq<Visit>>, q1: seq<Visit>,
                  q1': seq<Visit>, q2': seq<Parent>, ps': seq<Origin>, kids': seq<seq<Visit>>,
                  o: Origin, c: Addr, vs: seq<Visit>, m: nat, b: nat)
    requires Draining(h0, h, src, done, q2, ps, kids, q1, o, c, vs, m) && q2 != [] && |ps| == |q2| && |kids| == |q2|
    requires Refilled(h0, h, h', src, src', done, q2[1..], ps[1..], kids[1..], q1', q2', ps', kids',
                      q2[0].node, ps[0], q2[0].numChildren, b)
    ensures Draining(h0, h', src', Finished(h0, done, q2[0], ps[0]), q2', ps', kids', q1', o, c, vs, m)
    ensures QWeight(b, ps', kids') < QWeight(b, ps, kids)
  {
    PopQueue(h0, h, src, done, q2, ps, kids, b);
    QueueKeep(h0, src, done, q2, ps, kids, c);
    var done' := Finished(h0, done, q2[0], ps[0]);
    DrainPending(h0, h', src, src', done, done', q2, ps, q2', ps', kids');
    DrainKeep(h0, h, h', src, src', done, done', q2, ps, q2', ps', kids', o, c, vs, m);
  }

  /** Finishing the first parent keeps the copies and the queue in order. */
  lemma DrainPending(h0: Store, h': Store, src: map<Addr, Origin>, src': map<Addr, Origin>, done: set<Addr>, done': set<Addr>,
                     q2: seq<Parent>, ps: seq<Origin>, q2': seq<Parent>, ps': seq<Origin>, kids': seq<seq<Visit>>)
    requires |ps| == |q2| && q2 != [] && src.Keys <= src'.Keys && done' == Finished(h0, done, q2[0], ps[0])
    requires !IsLeaf(h0, ps[0].v) ==> q2[0].node.Ref? && q2[0].node.addr in src && Complete(h0, h', src', q2[0].node.addr)
    requires !IsLeaf(h0, ps[0].v) ==> q2[0].node.addr !in Opened(h0, q2[1..], ps[1..])
    requires Pending(h0, h', src', done, q2', ps', kids') && Opened(h0, q2', ps') == Opened(h0, q2[1..], ps[1..]) + (src'.Keys - src.Keys)
    ensures Pending(h0, h', src', done', q2', ps', kids')
  {
    if !IsLeaf(h0, ps[0].v) {
      var a := q2[0].node.addr;
      assert a !in Opened(h0, q2', ps');
      QueueDone(h0, h', src', done, q2', ps', kids', a);
    }
  }

  /** The top-level copy keeps its entries and stays neither queued nor
      finished, and the copies stay accounted for. */
  lemma DrainKeep(h0: Store, h: Store, h': Store, src: map<Addr, Origin>, src': map<Addr, Origin>, done: set<Addr>, done': set<Addr>,
                  q2: seq<Parent>, ps: seq<Origin>, q2': seq<Parent>, ps': seq<Origin>, kids': seq<seq<Visit>>,
                  o: Origin, c: Addr, vs: seq<Visit>, m: nat)
    requires |ps| == |q2| && q2 != [] && done' == Finished(h0, done, q2[0], ps[0]) && |ps'| == |q2'|
    requires c in src && src[c] == o && c !in done && c !in Opened(h0, q2[1..], ps[1..])
    requires !IsLeaf(h0, ps[0].v) && q2[0].node.Ref? ==> q2[0].node.addr != c
    requires Filled(h0, h, src, c, vs, m) && Grows(h, h', src, src') && src.Keys <= src'.Keys
    requires IsLeaf(h0, ps[0].v) ==> h' == h
    requires !IsLeaf(h0, ps[0].v) ==> q2[0].node.Ref? && Touched(h, h', q2[0].node.addr)
    requires src.Keys == done + Opened(h0, q2, ps) + {c}
    requires Opened(h0, q2, ps) == Opened(h0, q2[1..], ps[1..]) + (if !IsLeaf(h0, ps[0].v) && q2[0].node.Ref? then {q2[0].node.addr} else {})
    requires Opened(h0, q2', ps') == Opened(h0, q2[1..], ps[1..]) + (src'.Keys - src.Keys)
    ensures c in src' && src'[c] == o && c !in done' && c !in Opened(h0, q2', ps')
    ensures Filled(h0, h', src', c, vs, m) && src'.Keys == done' + Opened(h0, q2', ps') + {c}
  {
    assert h'[c] == h[c];
    FilledStable(h0, h, h', src, src', c, vs, m);
    var first := if !IsLeaf(h0, ps[0].v) && q2[0].node.Ref? then {q2[0].node.addr} else {};
    assert done' == done + first;
    DrainKeys(src.Keys, src'.Keys, done, Opened(h0, q2, ps), Opened(h0, q2', ps'), Opened(h0, q2[1..], ps[1..]), first, c);
  }

  /** The bookkeeping of one turn on sets: `first` moves from the queue to
      the finished copies and the new copies join the queue. */
  lemma DrainKeys(s: set<Addr>, s': set<Addr>, d: set<Addr>, q: set<Addr>, q': set<Addr>, t: set<Addr>, first: set<Addr>, c: Addr)
    requires s == d + q + {c} && q == t + first && q' == t + (s' - s) && s <= s'
    requires c !in d && c !in t && c !in first
    ensures c !in d + first && c !in q' && s' == (d + first) + q' + {c}
  {
  }

  /** The top-level copy is neither queued nor finished. */
  lemma QueueKeep(h0: Store, src: map<Addr, Origin>, done: set<Addr>,
                  q2: seq<Parent>, ps: seq<Origin>, kids: seq<seq<Visit>>, c: Addr)
    requires |ps| == |q2| && q2 != [] && c !in Opened(h0, q2, ps)
    ensures c !in Opened(h0, q2[1..], ps[1..])
    ensures !IsLeaf(h0, ps[0].v) && q2[0].node.Ref? ==> q2[0].node.addr != c
  {
    OpenedDrop(h0, q2, ps);
  }

  // ---------------------------------------------------------------------------
  // The top level: the copy `ret` of `obj` and the callback over its entries.

  /** `var ret = type == "Object" ? {} : []`: the first copy, recorded for `obj`. */
  lemma CloneStart(h0: Store, h: Store, ret: Addr, obj: Value, e: nat, roots: seq<Visit>)
    requires WellFormed(h0) && ValueIn(h0, obj) && IsContainer(h0, obj) && !IsLeaf(h0, obj) && Budgeted(h0, obj, e)
    requires ret !in h0 && h == h0[ret := Shell(TypeOf(h0, obj))] && ChildVisits(h0, obj, roots)
    ensures Filling(h0, h, map[ret := Origin(obj, e)], {}, [], [], [], Origin(obj, e), ret, roots, 0)
    ensures map[ret := Origin(obj, e)].Keys == {} + {ret}
  {
    var src := map[ret := Origin(obj, e)];
    assert CopyOf(h0, src[ret], h[ret]);
    assert Opened(h0, [], []) == {};
    assert roots[..0] == [];
  }

  lemma EmptyAppend<T>(s: seq<T>)
    ensures [] + s == s
  {
  }

  /** An empty copy refers to nothing. */
  lemma ShellOk(h: Store, t: string)
    ensures CellOk(h, Shell(t))
  {
  }

  /** The callback's copy of the root `vs[m]` into `c`, from the store `h`
      before it to `h'` after it: `queue2` then holds the root's copy alone
      and `queue1` its entries. */
  lemma RootStep(h0: Store, h: Store, h': Store, n: Addr, c: Addr, copy: Value, gk: seq<Visit>, b: nat,
                 src: map<Addr, Origin>, src': map<Addr, Origin>, done: set<Addr>,
                 q2: seq<Parent>, ps: seq<Origin>, kids: seq<seq<Visit>>, q1: seq<Visit>, o: Origin, vs: seq<Visit>, m: nat)
    requires WellFormed(h0) && Frame(h0, h) && n !in h && b == MaxWidth(h0, h0.Keys)
    requires Filling(h0, h, src, done, [], [], [], o, c, vs, m) && src.Keys == done + {c} && m < |vs|
    requires Stepped(h0, h, h', n, c, vs[m], copy) && IsSimple(h0, vs[m].value) == Ok(true)
    requires if IsLeaf(h0, vs[m].value) then gk == [] else ChildVisits(h0, vs[m].value, gk)
    requires src' == Recorded(h0, src, n, vs[m].value, o.e - 1) && q2 == [Parent(copy, |gk|)]
    requires ps == [Origin(vs[m].value, o.e - 1)] && kids == [gk] && q1 == gk
    ensures Draining(h0, h', src', done, q2, ps, kids, q1, o, c, vs, m + 1) && Frame(h0, h')
    ensures Cloneable(h0, o.v, o.e) ==> AllCloneable(h0, ps)
  {
    RootFill(h0, h, h', n, c, copy, gk, b, src, src', done, q2, ps, kids, o, vs, m);
    RootKeys(src.Keys, src'.Keys, done, Opened(h0, q2, ps), c);
    FlattenOne(gk);
  }

  lemma FlattenOne(gk: seq<Visit>)
    ensures Flatten([gk]) == gk
  {
    assert [gk][1..] == [];
  }

  /** `FillStep` on empty queues. */
  lemma RootFill(h0: Store, h: Store, h': Store, n: Addr, c: Addr, copy: Value, gk: seq<Visit>, b: nat,
                 src: map<Addr, Origin>, src': map<Addr, Origin>, done: set<Addr>,
                 q2: seq<Parent>, ps: seq<Origin>, kids: seq<seq<Visit>>, o: Origin, vs: seq<Visit>, m: nat)
    requires WellFormed(h0) && Frame(h0, h) && n !in h && b == MaxWidth(h0, h0.Keys)
    requires Filling(h0, h, src, done, [], [], [], o, c, vs, m) && m < |vs|
    requires Stepped(h0, h, h', n, c, vs[m], copy) && IsSimple(h0, vs[m].value) == Ok(true)
    requires if IsLeaf(h0, vs[m].value) then gk == [] else ChildVisits(h0, vs[m].value, gk)
    requires src' == Recorded(h0, src, n, vs[m].value, o.e - 1) && q2 == [Parent(copy, |gk|)]
    requires ps == [Origin(vs[m].value, o.e - 1)] && kids == [gk]
    ensures Filling(h0, h', src', done, q2, ps, kids, o, c, vs, m + 1) && Frame(h0, h')
    ensures Opened(h0, q2, ps) == {} + (src'.Keys - src.Keys) && src.Keys <= src'.Keys
    ensures Cloneable(h0, o.v, o.e) ==> AllCloneable(h0, ps)
  {
    var q2e: seq<Parent>, pse: seq<Origin>, kidse: seq<seq<Visit>> := [], [], [];
    EmptyAppend(q2);
    EmptyAppend(ps);
    EmptyAppend(kids);
    FillStep(h0, h, h', n, c, copy, gk, b, src, done, q2e, pse, kidse, o, vs, m);
    assert Opened(h0, q2e, pse) == {};
    GrowsKeys(h, h', src, src');
    assert AllCloneable(h0, pse);
  }

  lemma GrowsKeys(h: Store, h': Store, src: map<Addr, Origin>, src': map<Addr, Origin>)
    requires Grows(h, h', src, src')
    ensures src.Keys <= src'.Keys
  {
  }

  lemma RootKeys(s1: set<Addr>, s: set<Addr>, d: set<Addr>, q: set<Addr>, c: Addr)
    requires q == {} + (s - s1) && s1 == d + {c} && s1 <= s
    ensures s == d + q + {c}
  {
  }

  /** An empty `queue2` leaves only the finished copies and `c`. */
  lemma DrainEnd(h0: Store, h: Store, src: map<Addr, Origin>, done: set<Addr>, o: Origin, c: Addr, vs: seq<Visit>, m: nat)
    requires Draining(h0, h, src, done, [], [], [], [], o, c, vs, m)
    ensures Filling(h0, h, src, done, [], [], [], o, c, vs, m) && src.Keys == done + {c}
  {
    assert Opened(h0, [], []) == {};
  }

  /** Once every root is copied and `queue2` is empty, `ret` is a deep copy of `obj`. */
  lemma CloneDone(h0: Store, h: Store, src: map<Addr, Origin>, done: set<Addr>, obj: Value, e: nat, ret: Addr, roots: seq<Visit>)
    requires Filling(h0, h, src, done, [], [], [], Origin(obj, e), ret, roots, |roots|) && src.Keys == done + {ret}
    ensures DeepCopy(h0, h, obj, Ref(ret), e)
    ensures Cloneable(h0, obj, e)
  {
    FilledComplete(h0, h, src, ret, roots);
    AllComplete(h0, h, src, done, ret);
    CompleteCopy(h0, h, src, obj, e, ret);
  }

  /** The finished copies and `ret` are all the copies there are. */
  lemma AllComplete(h0: Store, h: Store, src: map<Addr, Origin>, done: set<Addr>, ret: Addr)
    requires DoneOk(h0, h, src, done) && Complete(h0, h, src, ret) && src.Keys == done + {ret}
    ensures forall d :: d in src ==> Complete(h0, h, src, d)
  {
  }

  /** With every copy complete, the copy `ret` of `obj` is a deep copy of it. */
  lemma CompleteCopy(h0: Store, h: Store, src: map<Addr, Origin>, obj: Value, e: nat, ret: Addr)
    requires SrcOk(h0, h, src) && forall d :: d in src ==> Complete(h0, h, src, d)
    requires ret in src && src[ret] == Origin(obj, e)
    ensures DeepCopy(h0, h, obj, Ref(ret), e) && Cloneable(h0, obj, e)
  {
    CompleteDeep(h0, h, src, ret, e);
    DeepCopyCloneable(h0, h, obj, Ref(ret), e);
  }
}
