# pbj.js core in Dafny

This project covers six core functions of the pbj.js toolkit:

- type detection: `$typeof`;
- iteration: `$each`;
- the three copying helpers: `$extend`, `$merge` and `$clone`;
- dotted-path access: `$delimit`.

It also covers `$clone`'s private helpers `isPrimitive`, `isSimple` and `simpleClone`.

The JavaScript heap is modelled explicitly:

- A `Heaps.Heap` object holds a map from addresses to containers (`Cell`), plus the next free address.
- A container records what these functions can observe:
  - the `[object X]` class name;
  - whether it is `instanceof Object`;
  - its own enumerable properties;
  - the enumerable properties it inherits;
  - an array's `length`;
  - the primitive payload of a wrapper object.
- A JavaScript value is `undefined`, `null`, a boolean, a number, a string or a reference.
- Property keys (`Keys.Key`) are either array indices or names. `Keys.KeyOf` gives the key a JavaScript property name denotes (`"0"` is an index, `"01"` a name).
- Exceptions, both the toolkit's own `throw`s and the host's TypeErrors, are `Heaps.Error` values carried in a `Result`.

The functions that change objects in place are methods on the heap: `$extend`, `$merge`, `$delimit` in set mode, and `$clone`, which allocates. Each method is proved against a specification function or predicate stated on the store it starts from:

- `Extender.CopyAll` and `Extender.CopiesOf` for `$extend`;
- `MergeSpec.Merged` for `$merge`;
- `PathSpec.Walk`, `PathSpec.ReadLast` and `PathSpec.Lookup` for `$delimit`;
- `CloneSpec.Cloneable` and `CloneSpec.DeepCopy` for `$clone`.

Lemmas beside each method say what those specifications mean:

- a set path reads back the value set;
- merging keeps the keys it does not own;
- a clone is a fresh deep copy exactly when the source is cloneable.

`$each` and `$typeof` work on values. They read the store but do not change it. `$each`'s callback is a function parameter that returns a value; `false` stops the iteration.

Depth bounds are ghost parameters:

- `d` for `$merge` and `$delimit`;
- `E` for `$clone`.

Each one bounds how long the chains of references the operation follows can be (`Graphs.Bounded` for `$merge`, `CloneSpec.CloneBounded` for `$clone`). The bounds give the recursion of `$merge` and the queues of `$clone` a measure. On a cycle through the references it follows, the source either runs forever or stops with an exception; `$clone` stops when it meets an entry that is not simple. The models exclude such inputs in both cases.

## Model

| member | source | states |
|---|---|---|
| Classifier.TypeOf | pbj.js:29-42 | `Object`, `Array` and `Function` are reported only for references to containers of that class; a probe-free value gets its class name; `undefined` and `null` get `Undefined` and `Null` |
| Classifier.ClassifyByRules | pbj.js:30-41 | `$typeof` is the first match of the ordered probe table (undefined, null, `getElementById`/`all`, `item`, `callee`, `nodeType`), falling back to the class name |
| Classifier.FirstMatchIsFirst | pbj.js:30-35 | when a probe passes and none before it does, that probe's tag is the answer |
| Classifier.FirstMatchFallback | pbj.js:38-41 | when no probe passes, the answer is the `toString` class name |
| Classifier.DuckTypingWins | pbj.js:33 | a plain object with a truthy `item` property is classified as `Collection`, not `Object` |
| Classifier.BasicClassification | pbj.js:29-42 | undefined, null, `{}`, `[]`, a function, a boolean, a number and a string get `Undefined`, `Null`, `Object`, `Array`, `Function`, `Boolean`, `Number` and `String` |
| Iterator.Each | pbj.js:93-122 | indexed types run the numbered loop; `Function` and `Object` run the `for..in` loop; any other type throws the "must be iterable" error |
| Iterator.EachIndexed | pbj.js:96-107 | the visits are the elements `0..length-1` in order, read through `item(i)` when asked for and through `obj[i]` otherwise, up to and including the first callback that returns exactly `false`; a non-callable `item` throws |
| Iterator.EachKeyed | pbj.js:108-117 | each visit is a distinct enumerable key with its value, and own keys only when `local` is set; either every key is visited, or the last callback returned `false` and no earlier one did |
| Iterator.Elements | pbj.js:99-101 | there is one element per position below the length, and element `i` is `item(i)` or `obj[i]` paired with index `i` |
| Iterator.UntilStop | pbj.js:103-105 | the run is a prefix of the items; no callback before the last returned `false`; the run stops short only when the last one did |
| Iterator.UntilStopAt | pbj.js:103-105 | when item `i` is the first whose callback returns `false`, the run is exactly items `0..i` |
| Iterator.UntilStopAll | pbj.js:99-107 | when no callback returns `false`, every item is visited |
| Extender.Extend3 | pbj.js:151-152 | `$extend(obj, key, val)` stores `val` at `obj[key]` and throws exactly when `obj` is undefined or null |
| Extender.Extend2 | pbj.js:140-149 | `$extend(obj, src)` copies exactly the own iterated pairs of `src`, in iteration order, onto `obj`; it throws "not iterable" for a `src` that `$each` rejects and a TypeError when `obj` is undefined or null and there is something to copy |
| Extender.ExtendEffect | pbj.js:140-149 | after the copy, every copied key of `obj` holds `src`'s value, every other key of `obj` is unchanged, and so is every other container |
| Extender.CopyAllEffect | pbj.js:145 | a sequence of writes with distinct keys leaves each written key holding its value and every other property and container as it was |
| Extender.OwnPairsFacts | pbj.js:144 | the `hasOwnProperty` filter keeps exactly the visits whose key `src` owns, with distinct keys and `src`'s values |
| Extender.CopyVisits | pbj.js:143-146 | the copy loop leaves the store equal to the specification's sequence of writes; it fails on an undefined or null target exactly when some pair was to be copied, and then writes nothing |
| Extender.EachCopies | pbj.js:143-145 | with a callback that never stops, the `$each` run filtered by `hasOwnProperty` yields each owned iterated key of `src` once, with its value |
| Heaps.Heap.Assign | pbj.js:152 | `target[k] = v` throws exactly on undefined or null targets and otherwise performs the store update `Put` |
| Heaps.Heap.Alloc | pbj.js:285 | a new `{}`, `[]` or `new C(...)` gets a fresh address, and no existing container changes |
| Heaps.PutProperties | pbj.js:152 | a property write keeps the store well formed; it changes only the target's written key (and the length of an array that grows), and the written key reads back the value |
| Heaps.PutSame | pbj.js:223 | writing `lvl[k] = lvl[k]` back when `lvl` owns `k` leaves the store unchanged |
| Keys.KeyOf | pbj.js:223 | a property name denotes an index exactly when it is a canonical array index, and that index has the name's numeric value |
| Keys.Split | pbj.js:220 | `path.split('.')` gives a non-empty list of dot-free parts whose join with `.` is the path |
| Keys.SplitJoin | pbj.js:220 | splitting the join of a non-empty list of dot-free parts gives the parts back |
| Keys.Segments | pbj.js:220 | the path yields one key per part, and each key is the one the part's name denotes |
| PathAccessor.Delimit | pbj.js:214-240 | undefined or null `path` gives `null`; a `path` that is neither a string nor a String object throws, since it has no `split`; `val === undefined` reads the path like a plain lookup and changes no existing container; `val === null` walks in write mode and reads the last key; otherwise it walks in write mode, then merges `val` into the existing value when `merge` is truthy and both are classified `Object` (throwing when `$merge` rejects them as not `instanceof Object`), and assigns `val` otherwise |
| PathAccessor.PathText | pbj.js:220 | a string splits as itself and a String object as its payload; every other value throws the TypeError of a missing `split` |
| PathAccessor.GetPath | pbj.js:221-232 | the read result is the last key read after the walk; in get mode it equals `Lookup` of the path and changes no existing container |
| PathAccessor.SetPath | pbj.js:221-239 | the walk in write mode, followed by the plain or merging assignment of the last key, as in `Delimit` |
| PathAccessor.WalkPath | pbj.js:221-227 | the loop over the path's inner keys computes the walk the specification defines |
| PathAccessor.StepOnce | pbj.js:222-226 | one turn of the walk performs `PathSpec.Step` |
| PathAccessor.TouchOnce | pbj.js:222-224 | the write half of a turn: in write mode an undefined `lvl[k]` gets a fresh `{}` and any other value is written back; in get mode nothing changes |
| PathAccessor.DescendOnce | pbj.js:226 | the read half of a turn: `lvl = lvl[k] \|\| {}` |
| PathAccessor.AttachEmpty | pbj.js:223 | `lvl[k] = {}` allocates one fresh empty object and stores it at `lvl[k]` |
| PathAccessor.AssignLast | pbj.js:234-239 | the final assignment: a merge when `merge` is truthy and both the current value and `val` are classified `Object`, a plain write of `val` otherwise; writing into an undefined or null level throws |
| PathAccessor.MergeLast | pbj.js:235-236 | merging into the last key merges `val` into the existing object and stores it back; two values that are not both objects throw the merge error and change nothing |
| PathAccessor.SetThenLookup | pbj.js:214-240 | on a settable path, a plain set makes a later lookup of the path give the value set, and every container off the path is unchanged |
| PathAccessor.SetOnEmpty | pbj.js:197-199 | setting `x.y.z` of an empty object creates every intermediate level, and the path then reads back the value |
| PathSpec.WalkNoThrow | pbj.js:221-227 | a walk from a value other than undefined or null never throws and never ends at undefined or null, because of `\|\| {}` |
| PathSpec.GetModeLookup | pbj.js:226-232 | in get mode, the walk followed by the last read sees exactly what a plain property lookup of the path sees |
| PathSpec.ReadOnlyWalk | pbj.js:222-226 | in get mode the walk only adds fresh objects and changes no existing container |
| PathSpec.FreshRead | pbj.js:226 | reading any path from a fresh `{}` gives `undefined` |
| PathSpec.SetThenGet | pbj.js:221-238 | after a set along a settable path, the path reads back the value; the only existing containers changed are those on the path |
| Merger.Merge | pbj.js:169-192 | a falsy argument gives `null`; two truthy arguments that are not both objects throw and change nothing; otherwise `orig` is returned, merged with `obj` |
| Merger.MergeAll | pbj.js:179-189 | the `for (key in obj)` loop handles every key `obj` iterates, leaving `orig` merged with `obj` |
| Merger.MergeKey | pbj.js:180-188 | one turn of the loop extends the set of handled keys by the current key |
| Merger.StepSkip | pbj.js:180 | a key `obj` does not own is skipped and changes nothing |
| Merger.StepWrite | pbj.js:188 | copying `obj[key]` onto `orig` handles that key |
| Merger.StepRec | pbj.js:183-185 | when both sides hold objects, the recursive merge of the children handles that key and changes nothing outside the child's subtree |
| MergeSpec.MergedOnAgree | pbj.js:183-185 | whether a merge step is correct depends only on the containers below the two values |
| MergeExamples.MergeWins | pbj.js:183-188 | after the merge, an own key of `obj` reads `obj`'s value on `orig`, unless both held objects, and then `orig` keeps its own object, which `Merged` merges with `obj`'s in turn |
| MergeExamples.MergeKeepsOthers | pbj.js:179-181 | a key `obj` does not own reads the same on `orig` before and after the merge |
| MergeExamples.ArrayMergedByKey | pbj.js:179-189 | merging `[3]` into `[1, 2]` under one key gives `[3, 2]`: arrays are merged index by index, not replaced |
| CloneSpec.IsPrimitive | pbj.js:255-262 | reading `constructor` throws a TypeError exactly on undefined and null; booleans, numbers and strings are leaves, and plain objects and arrays are not |
| CloneSpec.IsSimple | pbj.js:265-269 | `isSimple` throws exactly on undefined and null, and accepts exactly plain objects, arrays and leaves |
| CloneSpec.SelfNamedArrayBounded | pbj.js:300-306 | `var a = [1]; a.me = a` meets the clone bound: `$each` over an array visits only its positions, so the cycle through `me` is never followed |
| CloneSpec.DeepCopyCloneable | pbj.js:253-360 | a deep copy exists only of a value whose clone does not throw |
| Cloner.SimpleClone | pbj.js:272-275 | a function is shared; a `RegExp` becomes a fresh `RegExp` with the same pattern; a wrapper or a Date becomes its primitive payload, and a Boolean object becomes `true` |
| Cloner.Children | pbj.js:300-306 | the inner `$each` queues every entry of a plain object or array once, with its value, and an array's entries in index order |
| Cloner.ChildStep | pbj.js:326-353 | one entry: a non-simple entry throws with nothing written; otherwise its entries are queued, its shallow copy is made (a fresh shell for a container) and stored at the parent copy's key, and the copy is queued as a parent expecting that many entries |
| Cloner.FillOne | pbj.js:324-353 | one turn of `while (count > 0)` keeps the fill invariant and advances the parent by one entry; it does not throw when the source is cloneable |
| Cloner.FillEntries | pbj.js:324-354 | filling a parent expecting `count > 0` entries consumes exactly its entries from `queue1` and leaves the copy complete |
| Cloner.FillParent | pbj.js:321-354 | the body of the `queue2` loop: the parent's copy gets all its entries, and a leaf parent gets none |
| Cloner.Drain | pbj.js:320-355 | the `queue2` loop ends with both queues empty and every copy complete; it fails only on an input that is not cloneable |
| CloneState.DrainTurn | pbj.js:320-355 | one turn of the `queue2` loop keeps the loop invariant and lowers the weight of the queues, so the loop ends |
| Cloner.RootOne | pbj.js:290-315 | the outer callback for one root does what `ChildStep` does for the entry, stored in `ret`, and drains the queues |
| Cloner.CopyRoots | pbj.js:289-356 | the outer `$each` fills `ret` with a copy of every root; it fails only on an input that is not cloneable |
| CloneState.CloneDone | pbj.js:358-359 | once every root is copied and the queues are empty, `ret` is a deep copy of `obj` |
| Cloner.CloneContainer | pbj.js:280-359 | for a plain object or array, the result is a fresh deep copy whenever the input is cloneable |
| Cloner.Clone | pbj.js:253-360 | `$clone` succeeds exactly when the input is cloneable, and then returns a deep copy made of fresh containers; the source is never written; undefined and null throw a TypeError, other non-simple values the "Can only clone" error |

A note on arrays in `$merge`. The toolkit's documentation describes arrays as replaced wholesale. The code merges them key by key, because an array is `instanceof Object` (pbj.js:183). The model follows the code, and `MergeExamples.ArrayMergedByKey` shows the difference.

## Left out

- `$xargs` and the other functions of pbj.js are not part of this model; only the six core functions and `$clone`'s helpers are.
- Numbers are integers. Floating point, `NaN` and a `length` that is not a non-negative integer are not represented.
- Strings are sequences of Unicode scalar values, so a string's `length` and index `s[i]` (`Heaps.Get`) count characters, not UTF-16 code units. In JavaScript `"😀".length` is 2; in the model it is 1.
- A write to an array's `length` changes nothing in the model. JavaScript would truncate or extend the array.
- Prototype chains are flattened. A container lists the enumerable properties it inherits, and those cannot be changed through it. Getters, setters and non-enumerable properties are not represented.
- Heaps.CellOk: inherited enumerable properties hold primitives only. An object whose prototype carries an enumerable method or object, such as `P.prototype.greet = function(){}` seen through `new P()`, cannot be represented. The source would visit such an entry in `$each`'s `for..in`, share or deep-copy it in `$clone`, merge into it through `orig[key]` in `$merge`, and see it in `$typeof`'s probes. Prototype objects are shared among every instance, so allowing references there would put them into every footprint and frame the proofs rely on.
- Enumeration order: `for..in` visits are modelled as any order with each key once, which is the most the language guarantees.
- Iterator.Each: `fn` is a total function parameter that always returns a value. A non-callable `fn`, which throws a TypeError at `fn.call` on the first visit (pbj.js:103, pbj.js:113), is not modelled; nor is a callback that throws or changes objects.
- Iterator.Each: `hasOwnProperty` is assumed to be the built-in on every container (`Heaps.HasOwn`). A null-prototype object (`Object.create(null)`) or an object with an own `hasOwnProperty` that shadows it is not modelled. With `local` set, the source throws a TypeError at `obj.hasOwnProperty` there (pbj.js:110), or calls the shadowing value, while the model filters by `HasOwn` and returns `Ok`.
- Extender.Extend2: the same assumption about `hasOwnProperty` (`Heaps.HasOwn`). For a null-prototype or shadowing source object, the source throws at `key.hasOwnProperty` (pbj.js:144) or calls the shadowing value, while the model copies the own pairs. The error cases stated in `Extend2`'s contract hold only under that assumption.
- Merger.Merge: the same assumption about `hasOwnProperty` (`Heaps.HasOwn`). For a null-prototype or shadowing `obj`, or such an `obj` met further down, the source throws at `obj.hasOwnProperty` (pbj.js:180) or calls the shadowing value, while the model merges the own keys.
- Iterator.Each: the `item` accessor of a host collection is a function parameter (`itemAt`), and the receiver `bind` gives the callback is not modelled.
- Classifier.TypeOf: the regular-expression strip of `Object.prototype.toString` is replaced by the stored class name.
- Classifier.TypeOf: the probes read properties as plain lookups. Host objects with exotic getters are not modelled.
- CloneSpec.IsPrimitive: the constructor is identified by the class name the built-in objects report. A user-defined constructor named like a built-in is not told apart.
- Cloner.SimpleClone: `new Date(d).valueOf()` is its time value, and other wrappers' `valueOf` is their payload; a user `valueOf` override is not modelled.
- Merger.Merge: requires, through `MergeSpec.MergePre`, three things. Every chain of own references from `obj` must end within the ghost depth `d`. Down to that depth, `orig` must be a tree: no container is reached twice and none points back to an ancestor. And the two must share no container. This excludes inputs the source merges without trouble: a cyclic `obj` under a key `orig` lacks (the source copies the reference and does not recurse), `$merge(x, x)`, and an `orig` holding one object under two keys. The restriction keeps the specification independent of enumeration order. With shared containers, a write made through one key is seen through another, so the result depends on the order of `for..in`, which the model leaves free. The depth also gives the recursion a measure: the source recurses without end when both sides hold objects along a cycle, such as `a.x = a` merged with `b.x = b`.
- Cloner.Clone: requires (`CloneSpec.CloneBounded`) that every chain of entries `$clone` copies ends within the ghost depth `E`. Those entries are the positions of arrays and the enumerable keys of plain objects. A cycle through an array's named keys or a leaf's properties is allowed, since `$clone` never follows those; `var a = [1]; a.me = a; $clone(a)` is covered. On a cycle through the copied entries, the source queues forever when every entry is simple. Otherwise it throws once the breadth-first fill meets the first entry that is not simple: `var o = {bad: undefined}; o.self = o; $clone(o)` throws a TypeError. The model excludes both kinds of input.
- Cloner.Clone: the copies are fresh. The contract does not state that two copies are distinct from each other.
- Cloner.CopyRoots: the roots are enumerated before the callbacks run. The source's outer `$each` reads each root while it iterates, and the callbacks write only to fresh copies, so both see the same roots.
- PathAccessor.Delimit: get-after-set (`SetThenLookup`) is proved only for settable paths, where every inner key holds `undefined` or a container not met again further down the path, and no key is an array's `length`. On other paths the source still runs, but the value may land where the path does not reach it. An inner level holding `null`, `0`, `""` or `false` is written back unchanged (pbj.js:223), and the walk goes on in a detached fresh `{}` (pbj.js:226), so the later writes go there. A truthy primitive level ignores the write made to it. A container met twice on the path can be overwritten by a later step.
- PathAccessor.Delimit: the merge branch requires, through `PathAccessor.SetPre`, the shape `MergeSpec.MergePre` of the two objects being merged. The `Merger.Merge` line above lists what that excludes.
- PathAccessor.Delimit: `path.split` is the built-in split of a string or a String object (`PathAccessor.PathText`). An object with a `split` method of its own, or a String object whose `split` was replaced, is treated as not splittable, since calling unknown code is not modelled.
- Keys.IsCanonicalIndex: no upper bound. JavaScript treats `"4294967295"` and larger numerals as property names, not array indices, but the model treats them as indices, and a write to one lengthens an array.
- Host I/O and the DOM are not modelled; DOM-like objects are containers with the probe properties.
