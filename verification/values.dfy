/**
  The runtime values that `Value\equal` and `Value\hash` inspect, as a closed
  sum over PHP's value kinds: null, bool, int, string, array (an ordered map
  from int or string keys to values) and object references. Floats are not
  modelled.
 */
module Values {
  import opened IntMath

  /** A PHP class name. Class names never contain a space, which the
      registry's pair cache key relies on. */
  type ClassName = s: string | ' ' !in s

  /** An object reference: its identity, its class and whether the class
      implements the `Value` interface. The identity `id` determines the other
      two fields (one instance has one class), so two references are the same
      instance, PHP's `===` on objects, exactly when they are equal records. */
  datatype ObjRef = ObjRef(id: nat, cls: ClassName, isValue: bool)

  /** PHP array keys are ints or strings (numeric strings are already
      normalised to int keys when the array is built). */
  datatype Key = IntKey(i: Int64) | StrKey(s: string)

  datatype Val =
    | Null
    | Bool(b: bool)
    | Int(i: Int64)
    | Str(s: string)
    | Arr(entries: seq<(Key, Val)>)
    | Obj(ref: ObjRef)

  /** `array_keys`: the keys in insertion order. */
  function Keys(entries: seq<(Key, Val)>): (ks: seq<Key>)
    ensures |ks| == |entries|
    ensures forall i :: 0 <= i < |entries| ==> ks[i] == entries[i].0
  {
    seq(|entries|, i requires 0 <= i < |entries| => entries[i].0)
  }

  /** `$array[$key]`: the value stored under k, or null when k is absent. */
  function ValueAt(entries: seq<(Key, Val)>, k: Key): (v: Val)
    ensures (forall i :: 0 <= i < |entries| ==> entries[i].0 != k) ==> v == Null
  {
    if |entries| == 0 then Null
    else if entries[0].0 == k then entries[0].1
    else ValueAt(entries[1..], k)
  }

  /** The lookup finds the value at the first occurrence of the key. */
  lemma {:induction false} ValueAtFirst(entries: seq<(Key, Val)>, k: Key, i: int)
    requires 0 <= i < |entries| && entries[i].0 == k
    requires forall j :: 0 <= j < i ==> entries[j].0 != k
    ensures ValueAt(entries, k) == entries[i].1
  {
    if i > 0 {
      var rest := entries[1..];
      assert entries[0].0 != k;
      assert forall j :: 0 <= j < i - 1 ==> rest[j] == entries[j + 1];
      ValueAtFirst(rest, k, i - 1);
    }
  }

  predicate DistinctKeys(entries: seq<(Key, Val)>)
  {
    forall i, j :: 0 <= i < j < |entries| ==> entries[i].0 != entries[j].0
  }

  /** A PHP array never holds the same key twice, at any depth. */
  predicate WellFormed(v: Val)
  {
    match v
    case Arr(e) => DistinctKeys(e) && forall i | 0 <= i < |e| :: WellFormed(e[i].1)
    case _ => true
  }

  /** Built only from null, bool, int, string and arrays of these. */
  predicate Plain(v: Val)
  {
    match v
    case Arr(e) => forall i | 0 <= i < |e| :: Plain(e[i].1)
    case Obj(_) => false
    case _ => true
  }

  /** In an array with distinct keys, looking up the i-th key finds the i-th value. */
  lemma ValueAtPosition(entries: seq<(Key, Val)>, i: int)
    requires DistinctKeys(entries) && 0 <= i < |entries|
    ensures ValueAt(entries, entries[i].0) == entries[i].1
  {
    ValueAtFirst(entries, entries[i].0, i);
  }
}
