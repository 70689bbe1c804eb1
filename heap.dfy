/** Values, containers and the mutable object heap the toolkit works on.

  A JavaScript value is a primitive or a reference to a container. A container
  (`Cell`) records what the toolkit can observe of an object: the class name
  `Object.prototype.toString` reports, whether it is `instanceof Object`, its
  own enumerable properties, the enumerable properties it inherits through its
  prototype chain, the length of an array, and the primitive payload of a
  wrapper object (a Date's time value, a Number object's number).
 */
module Heaps {
  import opened Keys

  type Addr = nat

  /** Numbers are modelled as integers (see README, "Left out"). */
  datatype Value = Undefined | Null | Bool(b: bool) | Num(n: int) | Str(s: string) | Ref(addr: Addr)

  datatype Cell = Cell(
    cls: string,                  // the name inside "[object ...]"
    isObject: bool,               // `instanceof Object`
    own: map<Key, Value>,         // own enumerable properties (an array's length is `len`)
    inherited: map<Key, Value>,   // enumerable properties found on the prototype chain
    len: nat,                     // `length` of an Array
    prim: Value)                  // primitive payload of a Date/Number/String/Boolean/RegExp object

  /** The exceptions the toolkit raises (its own `throw`s and the host's TypeErrors). */
  datatype Error =
    | NotIterable     // "Invalid use of $each. Object must be iterable."
    | NotCallable     // TypeError: `item` is not a function
    | NotMergeable    // "Invalid use of $merge(). Both parameters must be objects!"
    | NoProperties    // TypeError: reading or writing a property of undefined or null
    | NotSplittable   // TypeError: `path.split` is not a function
    | NotCloneable    // one of the three "Can only clone ..." messages

  datatype Result<T> = Ok(value: T) | Err(error: Error)

  type Store = map<Addr, Cell>

  /** JavaScript truthiness (`if (v)`, `!v`, `v || w`). */
  predicate Truthy(v: Value) {
    match v
    case Undefined => false
    case Null => false
    case Bool(b) => b
    case Num(n) => n != 0
    case Str(s) => s != ""
    case Ref(_) => true
  }

  predicate IsNullish(v: Value) {
    v.Undefined? || v.Null?
  }

  /** `{}` and `[]`: fresh containers with the standard prototypes. */
  function EmptyObject(): Cell {
    Cell("Object", true, map[], map[], 0, Undefined)
  }

  function EmptyArray(): Cell {
    Cell("Array", true, map[], map[], 0, Undefined)
  }

  predicate IsLengthOfArray(c: Cell, k: Key) {
    c.cls == "Array" && k == Name("length")
  }

  /** Property lookup on a container: own property, array length, then prototype chain. */
  function Prop(c: Cell, k: Key): Value {
    if IsLengthOfArray(c, k) then Num(c.len)
    else if k in c.own then c.own[k]
    else if k in c.inherited then c.inherited[k]
    else Undefined
  }

  /** `v[k]` for a value that is not undefined or null. */
  function Get(h: Store, v: Value, k: Key): Value {
    match v
    case Ref(a) => if a in h then Prop(h[a], k) else Undefined
    case Str(s) =>
      if k == Name("length") then Num(|s|)
      else if k.Index? && k.i < |s| then Str([s[k.i]])
      else Undefined
    case _ => Undefined
  }

  /** `v.hasOwnProperty(k)`. */
  predicate HasOwn(h: Store, v: Value, k: Key) {
    match v
    case Ref(a) => a in h && (k in h[a].own || IsLengthOfArray(h[a], k))
    case Str(s) => k == Name("length") || (k.Index? && k.i < |s|)
    case _ => false
  }

  /** `c[k] = v` on a container. Writing an index at or past the end of an array
      lengthens it; writing an array's `length` is not modelled and changes nothing. */
  function SetProp(c: Cell, k: Key, v: Value): (c': Cell)
    ensures c'.cls == c.cls && c'.isObject == c.isObject
    ensures c'.inherited == c.inherited && c'.prim == c.prim
  {
    if IsLengthOfArray(c, k) then c
    else
      var len' := if c.cls == "Array" && k.Index? && k.i >= c.len then k.i + 1 else c.len;
      c.(own := c.own[k := v], len := len')
  }

  /** The store after `target[k] = v`; a primitive target ignores the write
      (the toolkit is not strict-mode code). */
  function Put(h: Store, target: Value, k: Key, v: Value): Store {
    if target.Ref? && target.addr in h then h[target.addr := SetProp(h[target.addr], k, v)] else h
  }

  predicate ValueIn(h: Store, v: Value) {
    v.Ref? ==> v.addr in h
  }

  /** A container is well formed in `h`: its references point into `h`, its
      inherited properties and payload are primitives, and an array's own
      index keys lie below its length. */
  predicate CellOk(h: Store, c: Cell) {
    && (forall k :: k in c.own ==> ValueIn(h, c.own[k]))
    && (forall k :: k in c.inherited ==> !c.inherited[k].Ref?)
    && !c.prim.Ref?
    && (c.cls == "Array" ==> forall k :: k in c.own && k.Index? ==> k.i < c.len)
  }

  predicate WellFormed(h: Store) {
    forall a :: a in h ==> CellOk(h, h[a])
  }

  lemma CellOkGrow(h: Store, h': Store, c: Cell)
    requires CellOk(h, c) && h.Keys <= h'.Keys
    ensures CellOk(h', c)
  {
  }

  /** Reading a property of a value in a well-formed store yields a value in it. */
  lemma GetIn(h: Store, v: Value, k: Key)
    requires WellFormed(h) && ValueIn(h, v)
    ensures ValueIn(h, Get(h, v, k))
  {
  }

  /** A property write keeps the store well formed and changes only `target[k]`. */
  lemma PutProperties(h: Store, target: Value, k: Key, v: Value)
    requires WellFormed(h) && ValueIn(h, v)
    ensures WellFormed(Put(h, target, k, v)) && Put(h, target, k, v).Keys == h.Keys
    ensures forall a :: a in h && (!target.Ref? || a != target.addr) ==> Put(h, target, k, v)[a] == h[a]
    ensures forall k' :: k' != k && !(target.Ref? && target.addr in h && IsLengthOfArray(h[target.addr], k')) ==>
              Get(Put(h, target, k, v), target, k') == Get(h, target, k')
    ensures target.Ref? && target.addr in h && !IsLengthOfArray(h[target.addr], k) ==>
              Get(Put(h, target, k, v), target, k) == v
  {
    PutWellFormed(h, target, k, v);
  }

  lemma PutWellFormed(h: Store, target: Value, k: Key, v: Value)
    requires WellFormed(h) && ValueIn(h, v)
    ensures WellFormed(Put(h, target, k, v)) && Put(h, target, k, v).Keys == h.Keys
  {
    var h' := Put(h, target, k, v);
    forall a | a in h' ensures CellOk(h', h'[a]) {
      if target.Ref? && a == target.addr {
        SetPropOk(h, h[a], k, v);
        CellOkGrow(h, h', SetProp(h[a], k, v));
      } else {
        CellOkGrow(h, h', h[a]);
      }
    }
  }

  /** Storing a value of `h` keeps a container well formed in `h`. */
  lemma SetPropOk(h: Store, c: Cell, k: Key, v: Value)
    requires CellOk(h, c) && ValueIn(h, v)
    ensures CellOk(h, SetProp(c, k, v))
  {
  }

  /** Writing a container's own property back unchanged changes nothing. */
  lemma PutSame(h: Store, a: Addr, k: Key)
    requires WellFormed(h) && a in h && k in h[a].own && !IsLengthOfArray(h[a], k)
    ensures Put(h, Ref(a), k, h[a].own[k]) == h
  {
    assert CellOk(h, h[a]);
    assert h[a].own[k := h[a].own[k]] == h[a].own;
  }

  /** The JavaScript heap: every container the program can reach, by address. */
  class Heap {
    var cells: Store
    var next: Addr

    ghost predicate Valid()
      reads this
    {
      WellFormed(cells) && forall a :: a in cells ==> a < next
    }

    constructor ()
      ensures Valid() && cells == map[]
    {
      cells := map[];
      next := 0;
    }

    /** Allocates a new container (an object literal, `new C(...)`). */
    method Alloc(c: Cell) returns (a: Addr)
      requires Valid() && CellOk(cells, c)
      modifies this
      ensures Valid()
      ensures a !in old(cells) && cells == old(cells)[a := c]
      ensures a == old(next) && next == a + 1
    {
      a := next;
      next := next + 1;
      cells := cells[a := c];
      forall b | b in cells ensures CellOk(cells, cells[b]) {
        CellOkGrow(old(cells), cells, if b == a then c else old(cells)[b]);
      }
    }

    /** `target[k] = v`, which throws when `target` is undefined or null. */
    method Assign(target: Value, k: Key, v: Value) returns (r: Result<()>)
      requires Valid() && ValueIn(cells, v)
      modifies this
      ensures Valid()
      ensures r.Err? <==> IsNullish(target)
      ensures r.Err? ==> r.error == NoProperties
      ensures cells == Put(old(cells), target, k, v) && next == old(next)
    {
      if IsNullish(target) {
        return Err(NoProperties);
      }
      PutProperties(cells, target, k, v);
      cells := Put(cells, target, k, v);
      r := Ok(());
    }
  }
}
