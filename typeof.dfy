/** `$typeof`: the total classifier every other operation dispatches on.

  It runs duck-typed probes in a fixed order and, when none fires, falls back
  to the class name `Object.prototype.toString` reports. The probes look a
  property up (own or inherited) and test it for truthiness, exactly as
  `obj.item` does in an `if`.
 */
module Classifier {
  import opened Keys
  import opened Heaps

  /** `if (v.name)`: the property is present and truthy. */
  predicate Has(h: Store, v: Value, name: string) {
    Truthy(Get(h, v, Name(name)))
  }

  /** The class name in `Object.prototype.toString.apply(v)`, with the
      "[object ...]" wrapper already stripped. */
  function ClassName(h: Store, v: Value): string {
    match v
    case Undefined => "Undefined"
    case Null => "Null"
    case Bool(_) => "Boolean"
    case Num(_) => "Number"
    case Str(_) => "String"
    case Ref(a) => if a in h then h[a].cls else "Object"
  }

  /** `$typeof(v)`. */
  function TypeOf(h: Store, v: Value): (t: string)
    ensures (t == "Object" || t == "Array" || t == "Function") ==> v.Ref?
    ensures v.Ref? && v.addr in h && (t == "Object" || t == "Array" || t == "Function") ==> h[v.addr].cls == t
    ensures v.Ref? && v.addr in h && h[v.addr].cls == "Array" && t != "Array" ==>
              t in {"Document", "Collection", "Arguments", "Element"}
  {
    if v.Undefined? then "Undefined"
    else if v.Null? then "Null"
    else if Has(h, v, "getElementById") || Has(h, v, "all") then "Document"
    else if Has(h, v, "item") then "Collection"
    else if Has(h, v, "callee") then "Arguments"
    else if Has(h, v, "nodeType") then "Element"
    else ClassName(h, v)
  }

  // ---------------------------------------------------------------------------
  // The classifier as an ordered table of (test, tag) pairs.

  datatype Test = IsUndefined | IsNull | HasAny(names: seq<string>)

  datatype Rule = Rule(test: Test, tag: string)

  predicate Passes(h: Store, v: Value, t: Test) {
    match t
    case IsUndefined => v.Undefined?
    case IsNull => v.Null?
    case HasAny(names) => exists j :: 0 <= j < |names| && Has(h, v, names[j])
  }

  /** The precedence the classifier documents: earlier rules win. */
  const Rules: seq<Rule> := [
    Rule(IsUndefined, "Undefined"),
    Rule(IsNull, "Null"),
    Rule(HasAny(["getElementById", "all"]), "Document"),
    Rule(HasAny(["item"]), "Collection"),
    Rule(HasAny(["callee"]), "Arguments"),
    Rule(HasAny(["nodeType"]), "Element")
  ]

  /** The tag of the first rule that passes, or the class name when none does. */
  function FirstMatch(h: Store, v: Value, rules: seq<Rule>): string {
    if rules == [] then ClassName(h, v)
    else if Passes(h, v, rules[0].test) then rules[0].tag
    else FirstMatch(h, v, rules[1..])
  }

  /** `FirstMatch` returns the tag of the earliest passing rule ... */
  lemma {:induction false} FirstMatchIsFirst(h: Store, v: Value, rules: seq<Rule>, i: nat)
    requires i < |rules| && Passes(h, v, rules[i].test)
    requires forall j :: 0 <= j < i ==> !Passes(h, v, rules[j].test)
    ensures FirstMatch(h, v, rules) == rules[i].tag
  {
    if i > 0 {
      assert !Passes(h, v, rules[0].test);
      FirstMatchIsFirst(h, v, rules[1..], i - 1);
    }
  }

  /** ... and the class name when no rule passes. */
  lemma {:induction false} FirstMatchFallback(h: Store, v: Value, rules: seq<Rule>)
    requires forall j :: 0 <= j < |rules| ==> !Passes(h, v, rules[j].test)
    ensures FirstMatch(h, v, rules) == ClassName(h, v)
  {
    if rules != [] {
      assert !Passes(h, v, rules[0].test);
      FirstMatchFallback(h, v, rules[1..]);
    }
  }

  /** `$typeof` is exactly the ordered rule table. */
  lemma ClassifyByRules(h: Store, v: Value)
    ensures TypeOf(h, v) == FirstMatch(h, v, Rules)
  {
    var probes := ["getElementById", "all"];
    assert Passes(h, v, HasAny(probes)) <==> Has(h, v, "getElementById") || Has(h, v, "all") by {
      if Has(h, v, "all") { assert Has(h, v, probes[1]); }
      if Has(h, v, "getElementById") { assert Has(h, v, probes[0]); }
    }
    assert Passes(h, v, HasAny(["item"])) <==> Has(h, v, "item") by {
      if Has(h, v, "item") { assert Has(h, v, ["item"][0]); }
    }
    assert Passes(h, v, HasAny(["callee"])) <==> Has(h, v, "callee") by {
      if Has(h, v, "callee") { assert Has(h, v, ["callee"][0]); }
    }
    assert Passes(h, v, HasAny(["nodeType"])) <==> Has(h, v, "nodeType") by {
      if Has(h, v, "nodeType") { assert Has(h, v, ["nodeType"][0]); }
    }
    if v.Undefined? {
      FirstMatchIsFirst(h, v, Rules, 0);
    } else if v.Null? {
      FirstMatchIsFirst(h, v, Rules, 1);
    } else if Has(h, v, "getElementById") || Has(h, v, "all") {
      FirstMatchIsFirst(h, v, Rules, 2);
    } else if Has(h, v, "item") {
      FirstMatchIsFirst(h, v, Rules, 3);
    } else if Has(h, v, "callee") {
      FirstMatchIsFirst(h, v, Rules, 4);
    } else if Has(h, v, "nodeType") {
      FirstMatchIsFirst(h, v, Rules, 5);
    } else {
      FirstMatchFallback(h, v, Rules);
    }
  }

  /** The duck tests win over the class name: a plain object with a truthy
      `item` is a "Collection". */
  lemma DuckTypingWins(h: Store, a: Addr)
    requires a in h && h[a].cls == "Object" && Name("item") in h[a].own && Truthy(h[a].own[Name("item")])
    requires Name("getElementById") !in h[a].own && Name("getElementById") !in h[a].inherited
    requires Name("all") !in h[a].own && Name("all") !in h[a].inherited
    ensures TypeOf(h, Ref(a)) == "Collection"
  {
  }

  /** The classification of the basic values: undefined, null, {}, [], a
      function, true, 5 and "s". */
  lemma BasicClassification(h: Store, o: Addr, arr: Addr, f: Addr)
    requires o in h && h[o] == EmptyObject()
    requires arr in h && h[arr] == EmptyArray()
    requires f in h && h[f] == Cell("Function", true, map[], map[], 0, Undefined)
    ensures TypeOf(h, Undefined) == "Undefined" && TypeOf(h, Null) == "Null"
    ensures TypeOf(h, Ref(o)) == "Object" && TypeOf(h, Ref(arr)) == "Array"
    ensures TypeOf(h, Ref(f)) == "Function" && TypeOf(h, Bool(true)) == "Boolean"
    ensures TypeOf(h, Num(5)) == "Number" && TypeOf(h, Str("s")) == "String"
  {
  }
}
