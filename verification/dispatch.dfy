/**
  The polymorphic entry points of the `Value` namespace: `equal`, `hash`,
  `hashValues` and `hashKeysAndValues`, dispatching on the kind of a value.

  Everything they consult outside this library is a field of `Host`: the
  `Value` interface's methods, the registry's frozen strategy list, PHP's
  `crc32` and `spl_object_hash`. The registry's caches are left out of this
  view: the registry module proves that every answer it gives equals the
  scan of its strategy list (`Registry.ResolveEqual`, `Registry.ResolveHash`),
  and the list never changes once a lookup has happened.
 */
module Dispatch {
  import opened Bits
  import opened IntMath
  import opened Values
  import opened ValueInterface
  import Registry

  /** The range of PHP's `crc32`: an unsigned 32-bit checksum. */
  type Crc32 = x: int | 0 <= x < 0x1_0000_0000

  datatype Host = Host(
    value: ValueMethods,
    strategies: seq<Registry.Strategy>,
    crc32: string -> Crc32,
    objectHash: ObjRef -> string)

  /** `equal`: dispatches on the kind of the FIRST operand. Objects: the same
      instance, else the object's own `equals` if it is a `Value`, else false
      against a non-object, else the registry (false when no strategy
      matches). Arrays: same size, same keys in the same order and equal
      values under each key. Anything else: PHP's `===`. */
  function Equal(h: Host, v1: Val, v2: Val): bool
    decreases v1
  {
    match v1
    case Obj(o) =>
      if v1 == v2 then true
      else if o.isValue then h.value.equals(o, v2)
      else if !v2.Obj? then false
      else Registry.ResolveEqual(h.strategies, o, v2.ref).GetOr(false)
    case Arr(e1) =>
      if !v2.Arr? then false
      else if |e1| != |v2.entries| then false
      else if Keys(e1) != Keys(v2.entries) then false
      else forall i | 0 <= i < |e1| :: Equal(h, e1[i].1, ValueAt(v2.entries, e1[i].0))
    case _ => v1 == v2
  }

  /** `hash`. Objects that are neither `Value`s nor matched by a registered
      strategy fall back to the checksum of their identity hash. */
  function Hash(h: Host, v: Val): Int64
    decreases v, 2
  {
    match v
    case Null => 0
    case Bool(b) => if b then 1231 else 1237
    case Obj(o) =>
      if o.isValue then h.value.hashCode(o)
      else Registry.ResolveHash(h.strategies, o).GetOr(h.crc32(h.objectHash(o)))
    case Arr(e) => HashKeysAndValues(h, e)
    case Int(i) => i
    case Str(s) => h.crc32(s)
  }

  /** `hash` of an array key, which is an int or a string. */
  function KeyHash(h: Host, k: Key): Int64
  {
    match k
    case IntKey(i) => i
    case StrKey(s) => h.crc32(s)
  }

  function KeyValue(k: Key): Val
  {
    match k
    case IntKey(i) => Int(i)
    case StrKey(s) => Str(s)
  }

  /** `^` on two PHP integers: XOR of their 64-bit patterns. */
  function Xor(a: Int64, b: Int64): (r: Int64)
    ensures r == 0 <==> a == b
    ensures b == 0 ==> r == a
  {
    XorZero(Unsigned(a));
    XorSelf(Unsigned(a), Unsigned(b));
    Pow2At64();
    XorBound(Unsigned(a), Unsigned(b), 64);
    WrapCongruent(Unsigned(a), a);
    Wrap(BitXor(Unsigned(a), Unsigned(b)))
  }

  /** One step of the hash recurrence as the PHP code inlines it: `31 * acc`
      computed as `(acc << 5) - acc`, adding `acc` instead at PHP_INT_MIN,
      then the element's contribution added. */
  function Step(acc: Int64, contribution: Int64): (r: Int64)
    ensures r == Add(MultiplyBy31(acc), contribution)
  {
    if acc == MIN then Add(Add(ShiftLeft(acc, 5), acc), contribution)
    else Add(Add(ShiftLeft(acc, 5), -acc), contribution)
  }

  /** The recurrence of the hash as exact integers, without any overflow:
      1 for nothing, then `31 * acc + h` per element. */
  ghost function Polynomial(hs: seq<Int64>): int
  {
    if |hs| == 0 then 1 else 31 * Polynomial(hs[..|hs| - 1]) + hs[|hs| - 1]
  }

  /** The loop shared by `hashValues` and `hashKeysAndValues`: seeded with 1,
      one `Step` per contribution, in order. Its result is the exact
      polynomial reduced to 64 bits. */
  function Combine(hs: seq<Int64>): (r: Int64)
    ensures r == Wrap(Polynomial(hs))
  {
    if |hs| == 0 then 1
    else
      var init, last := hs[..|hs| - 1], hs[|hs| - 1];
      var acc := Combine(init);
      StepReduces(Polynomial(init), last);
      Step(acc, last)
  }

  /** A step on the reduced accumulator gives the reduced exact step. */
  lemma StepReduces(p: int, last: Int64)
    ensures Step(Wrap(p), last) == Wrap(31 * p + last)
  {
    var acc := Wrap(p);
    WrapScale(p, 31);
    assert MultiplyBy31(acc) == Wrap(31 * p);
    var m := Wrap(31 * p);
    assert ((m + last) - (31 * p + last)) % TWO64 == 0;
    WrapCongruent(m + last, 31 * p + last);
  }

  /** `hashValues`: the combined hash of a sequence of values. */
  function HashValues(h: Host, vs: seq<Val>): (r: Int64)
    ensures |vs| == 0 ==> r == 1
    ensures |vs| == 1 ==> r == Add(31, Hash(h, vs[0])) && r != Hash(h, vs[0])
  {
    var hs := seq(|vs|, i requires 0 <= i < |vs| => Hash(h, vs[i]));
    assert |vs| == 1 ==> hs[..0] == [] && hs[0] == Hash(h, vs[0]);
    assert Pow2(5) == 32;
    Combine(hs)
  }

  /** The per-entry contributions of an array: `hash($key) ^ hash($value)`. */
  function Contributions(h: Host, e: seq<(Key, Val)>): (cs: seq<Int64>)
    ensures |cs| == |e|
    decreases Arr(e), 0
  {
    seq(|e|, i requires 0 <= i < |e| => Xor(KeyHash(h, e[i].0), Hash(h, e[i].1)))
  }

  /** `hashKeysAndValues`: the combined hash of an array's entries in order. */
  function HashKeysAndValues(h: Host, e: seq<(Key, Val)>): (r: Int64)
    ensures |e| == 0 ==> r == 1
    ensures r == Wrap(Polynomial(Contributions(h, e)))
    decreases Arr(e), 1
  {
    Combine(Contributions(h, e))
  }
}
