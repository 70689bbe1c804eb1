/** Property keys and dot-delimited paths.

  A JavaScript property key is a string, but a key that is the canonical
  decimal form of an array index ("0", "17", not "017") addresses an array
  element. The model keeps the two apart: `Index(i)` for canonical index keys
  and `Name(s)` for every other key.
 */
module Keys {

  datatype Key = Index(i: nat) | Name(s: string)

  predicate IsDigit(c: char) {
    '0' <= c <= '9'
  }

  /** The canonical decimal form of a natural number: digits only, no leading zero. */
  predicate IsCanonicalIndex(s: string) {
    |s| > 0 && (forall j :: 0 <= j < |s| ==> IsDigit(s[j])) && (s[0] != '0' || |s| == 1)
  }

  /** The number written by a string of decimal digits. */
  function DigitsValue(s: string): nat
    requires forall j :: 0 <= j < |s| ==> IsDigit(s[j])
  {
    if |s| == 0 then 0
    else
      assert IsDigit(s[|s| - 1]);
      DigitsValue(s[..|s| - 1]) * 10 + (s[|s| - 1] as int - '0' as int)
  }

  /** The key a property-name string denotes. */
  function KeyOf(s: string): (k: Key)
    ensures k.Index? <==> IsCanonicalIndex(s)
    ensures IsCanonicalIndex(s) ==> k.i == DigitsValue(s)
    ensures k.Name? ==> k.s == s
  {
    if IsCanonicalIndex(s) then Index(DigitsValue(s)) else Name(s)
  }

  /** Position of the first '.' in `s`. */
  function FirstDot(s: string): (i: nat)
    requires '.' in s
    ensures i < |s| && s[i] == '.' && '.' !in s[..i]
  {
    if s[0] == '.' then 0
    else
      var j := FirstDot(s[1..]);
      assert s[1..][..j] == s[1..j + 1];
      j + 1
  }

  /** The inverse of `Split`: the parts glued back together with dots. */
  function Join(parts: seq<string>): string
    requires |parts| > 0
  {
    if |parts| == 1 then parts[0] else parts[0] + "." + Join(parts[1..])
  }

  /** `path.split(".")`: the maximal dot-free pieces of `s`, in order. */
  function Split(s: string): (parts: seq<string>)
    ensures |parts| > 0
    ensures forall j :: 0 <= j < |parts| ==> '.' !in parts[j]
    ensures Join(parts) == s
    decreases |s|
  {
    if '.' !in s then [s]
    else
      var i := FirstDot(s);
      var rest := Split(s[i + 1..]);
      assert s == s[..i] + "." + s[i + 1..];
      [s[..i]] + rest
  }

  /** The segments of a path, as property keys. */
  function Segments(path: string): (ks: seq<Key>)
    ensures |ks| == |Split(path)|
    ensures forall j :: 0 <= j < |ks| ==> ks[j] == KeyOf(Split(path)[j])
  {
    var parts := Split(path);
    seq(|parts|, j requires 0 <= j < |parts| => KeyOf(parts[j]))
  }

  /** Splitting undoes joining, for dot-free parts: the path syntax loses nothing. */
  lemma {:induction false} SplitJoin(parts: seq<string>)
    requires |parts| > 0
    requires forall j :: 0 <= j < |parts| ==> '.' !in parts[j]
    ensures Split(Join(parts)) == parts
  {
    if |parts| == 1 {
    } else {
      var s := Join(parts);
      var tail := Join(parts[1..]);
      assert s == parts[0] + "." + tail;
      assert '.' in s by { assert s[|parts[0]|] == '.'; }
      var i := FirstDot(s);
      assert i == |parts[0]|;
      assert s[..i] == parts[0];
      assert s[i + 1..] == tail;
      SplitJoin(parts[1..]);
    }
  }
}
