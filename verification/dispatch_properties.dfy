/**
  Properties of `equal` and `hash`: what they compute on each kind, the
  order sensitivity of array equality, the equivalence-relation laws and the
  equal-implies-same-hash law for values built from null, bool, int, string
  and arrays, the documented asymmetry between objects and non-objects, and
  what the `Value` contract buys for objects.
 */
module DispatchProperties {
  import opened IntMath
  import opened Values
  import opened ValueInterface
  import opened Dispatch
  import Registry

  /** `hash` by kind: the fixed hashes of null and the booleans, an int
      as itself, a string as its crc32, an array through
      `hashKeysAndValues`, and a `Value` object through its own `hashCode`. */
  lemma HashByKind(h: Host, i: Int64, s: string, e: seq<(Key, Val)>, o: ObjRef)
    ensures Hash(h, Null) == 0
    ensures Hash(h, Bool(true)) == 1231 && Hash(h, Bool(false)) == 1237
    ensures Hash(h, Int(i)) == i
    ensures Hash(h, Str(s)) == h.crc32(s) && 0 <= Hash(h, Str(s)) < 0x1_0000_0000
    ensures Hash(h, Arr(e)) == HashKeysAndValues(h, e)
    ensures o.isValue ==> Hash(h, Obj(o)) == h.value.hashCode(o)
  {
  }

  /** `equal` on null, bools, ints and strings is PHP's `===`: the same kind
      and the same value. */
  lemma EqualOfScalars(h: Host, v1: Val, v2: Val)
    requires !v1.Arr? && !v1.Obj?
    ensures Equal(h, v1, v2) <==> v1 == v2
  {
  }

  /** Array keys hash as the int or string they are. */
  lemma KeyHashIsHash(h: Host, k: Key)
    ensures KeyHash(h, k) == Hash(h, KeyValue(k))
  {
  }

  /** `hashValues` folds from the left: one more element is one more step
      `31 * acc + hash(v)`, wrapped to 64 bits. */
  lemma HashValuesAppend(h: Host, vs: seq<Val>, v: Val)
    ensures HashValues(h, vs + [v]) == Add(MultiplyBy31(HashValues(h, vs)), Hash(h, v))
  {
    var hs := seq(|vs|, i requires 0 <= i < |vs| => Hash(h, vs[i]));
    var ws := vs + [v];
    var hs' := seq(|ws|, i requires 0 <= i < |ws| => Hash(h, ws[i]));
    assert hs'[..|hs'| - 1] == hs;
  }

  /** Equal key lists carry distinctness over. */
  lemma DistinctKeysTransfer(e1: seq<(Key, Val)>, e2: seq<(Key, Val)>)
    requires Keys(e1) == Keys(e2) && DistinctKeys(e1)
    ensures DistinctKeys(e2)
  {
    forall i, j | 0 <= i < j < |e2| ensures e2[i].0 != e2[j].0 {
      assert e2[i].0 == Keys(e1)[i] && e2[j].0 == Keys(e1)[j];
    }
  }

  /** Array equality position by position: the other operand must be an
      array of the same size with the same keys in the same order, and the
      values must be equal pairwise. */
  lemma ArrayEqualPositional(h: Host, e1: seq<(Key, Val)>, v2: Val)
    requires DistinctKeys(e1)
    ensures Equal(h, Arr(e1), v2) <==>
      && v2.Arr?
      && |e1| == |v2.entries|
      && Keys(e1) == Keys(v2.entries)
      && forall i :: 0 <= i < |e1| ==> Equal(h, e1[i].1, v2.entries[i].1)
  {
    if v2.Arr? && |e1| == |v2.entries| && Keys(e1) == Keys(v2.entries) {
      var e2 := v2.entries;
      DistinctKeysTransfer(e1, e2);
      forall i | 0 <= i < |e1| ensures ValueAt(e2, e1[i].0) == e2[i].1 {
        assert e1[i].0 == Keys(e1)[i] == e2[i].0;
        ValueAtPosition(e2, i);
      }
    }
  }

  /** The same keys in another order make two arrays unequal, whatever
      their values: `array_keys` is compared as an ordered list. */
  lemma ReorderedKeysUnequal(h: Host, e1: seq<(Key, Val)>, e2: seq<(Key, Val)>)
    requires multiset(Keys(e1)) == multiset(Keys(e2)) && Keys(e1) != Keys(e2)
    ensures !Equal(h, Arr(e1), Arr(e2)) && !Equal(h, Arr(e2), Arr(e1))
  {
  }

  /** An instance: [0 => 7, 1 => 8] and [1 => 8, 0 => 7] hold the same value
      under every key, yet are unequal. */
  lemma ReorderedKeysExample(h: Host)
    ensures
      var e1 := [(IntKey(0), Int(7)), (IntKey(1), Int(8))];
      var e2 := [(IntKey(1), Int(8)), (IntKey(0), Int(7))];
      && ValueAt(e1, IntKey(0)) == ValueAt(e2, IntKey(0))
      && ValueAt(e1, IntKey(1)) == ValueAt(e2, IntKey(1))
      && !Equal(h, Arr(e1), Arr(e2))
  {
    var e1 := [(IntKey(0), Int(7)), (IntKey(1), Int(8))];
    var e2 := [(IntKey(1), Int(8)), (IntKey(0), Int(7))];
    assert Keys(e1)[0] != Keys(e2)[0];
  }

  /** Every value equals itself (arrays never repeat a key). */
  lemma {:induction false} EqualReflexive(h: Host, v: Val)
    requires WellFormed(v)
    ensures Equal(h, v, v)
    decreases v
  {
    match v
    case Arr(e) =>
      forall i | 0 <= i < |e| ensures Equal(h, e[i].1, e[i].1) {
        EqualReflexive(h, e[i].1);
      }
      ArrayEqualPositional(h, e, v);
    case _ =>
  }

  /** From a plain value, equality transfers the other way round. */
  lemma {:induction false} EqualFlips(h: Host, x: Val, y: Val)
    requires Plain(x) && WellFormed(x) && Equal(h, x, y)
    ensures Equal(h, y, x)
    decreases x
  {
    match x
    case Arr(e1) =>
      ArrayEqualPositional(h, e1, y);
      var e2 := y.entries;
      DistinctKeysTransfer(e1, e2);
      forall i | 0 <= i < |e2| ensures Equal(h, e2[i].1, e1[i].1) {
        EqualFlips(h, e1[i].1, e2[i].1);
      }
      ArrayEqualPositional(h, e2, x);
    case _ =>
  }

  /** `equal` is symmetric on values without objects. */
  lemma EqualSymmetric(h: Host, x: Val, y: Val)
    requires Plain(x) && WellFormed(x) && Plain(y) && WellFormed(y)
    ensures Equal(h, x, y) <==> Equal(h, y, x)
  {
    if Equal(h, x, y) {
      EqualFlips(h, x, y);
    }
    if Equal(h, y, x) {
      EqualFlips(h, y, x);
    }
  }

  /** `equal` is transitive from a value without objects. */
  lemma {:induction false} EqualTransitive(h: Host, x: Val, y: Val, z: Val)
    requires Plain(x) && WellFormed(x)
    requires Equal(h, x, y) && Equal(h, y, z)
    ensures Equal(h, x, z)
    decreases x
  {
    match x
    case Arr(e1) =>
      ArrayEqualPositional(h, e1, y);
      var e2 := y.entries;
      DistinctKeysTransfer(e1, e2);
      ArrayEqualPositional(h, e2, z);
      var e3 := z.entries;
      forall i | 0 <= i < |e1| ensures Equal(h, e1[i].1, e3[i].1) {
        EqualTransitive(h, e1[i].1, e2[i].1, e3[i].1);
      }
      ArrayEqualPositional(h, e1, z);
    case _ =>
  }

  /** Equal values hash alike, from a value without objects: the contract
      between `equal` and `hash`. */
  lemma {:induction false} EqualImpliesSameHash(h: Host, x: Val, y: Val)
    requires Plain(x) && WellFormed(x) && Equal(h, x, y)
    ensures Hash(h, x) == Hash(h, y)
    decreases x
  {
    match x
    case Arr(e1) =>
      ArrayEqualPositional(h, e1, y);
      var e2 := y.entries;
      forall i | 0 <= i < |e1| ensures Hash(h, e1[i].1) == Hash(h, e2[i].1) {
        EqualImpliesSameHash(h, e1[i].1, e2[i].1);
      }
      forall i | 0 <= i < |e1|
        ensures Contributions(h, e1)[i] == Contributions(h, e2)[i]
      {
        assert e1[i].0 == Keys(e1)[i] == e2[i].0;
      }
      assert Contributions(h, e1) == Contributions(h, e2);
    case _ =>
  }

  /** `equal` dispatches on its first operand: a non-object never equals an
      object, while an object that is a `Value` may equal a non-object if its
      own `equals` says so. So the operand order matters. */
  lemma MixedKindsAsymmetric(h: Host, v: Val, o: ObjRef)
    requires !v.Obj?
    ensures !Equal(h, v, Obj(o))
    ensures Equal(h, Obj(o), v) <==> o.isValue && h.value.equals(o, v)
  {
  }

  /** An instance always equals itself, whatever its class. */
  lemma SameInstanceEqual(h: Host, o: ObjRef)
    ensures Equal(h, Obj(o), Obj(o))
  {
  }

  /** Under the `Value` contract no object equals null. */
  lemma NoObjectEqualsNull(h: Host, o: ObjRef)
    requires NeverEqualsNull(h.value)
    ensures !Equal(h, Obj(o), Null) && !Equal(h, Null, Obj(o))
  {
  }

  /** Under the `Value` contract, `equal` on `Value` objects is an
      equivalence relation and equal `Value` objects hash alike. */
  lemma ValueObjectsLaws(h: Host, x: ObjRef, y: ObjRef, z: ObjRef)
    requires Contract(h.value)
    requires x.isValue && y.isValue && z.isValue
    ensures Equal(h, Obj(x), Obj(y)) <==> Equal(h, Obj(y), Obj(x))
    ensures Equal(h, Obj(x), Obj(y)) && Equal(h, Obj(y), Obj(z)) ==> Equal(h, Obj(x), Obj(z))
    ensures Equal(h, Obj(x), Obj(y)) ==> Hash(h, Obj(x)) == Hash(h, Obj(y))
  {
  }

  /** Two objects of classes without `Value`: the registry decides, through
      the first strategy matching both classes; that strategy is the same in
      either operand order, so `equal` is symmetric there as soon as the
      strategies' own `equal` are. */
  lemma RegistryEqualSymmetric(h: Host, x: ObjRef, y: ObjRef)
    requires !x.isValue && !y.isValue
    requires forall i :: 0 <= i < |h.strategies| ==> h.strategies[i].equal(x, y) == h.strategies[i].equal(y, x)
    ensures Equal(h, Obj(x), Obj(y)) <==> Equal(h, Obj(y), Obj(x))
  {
    if x != y {
      var ss := h.strategies;
      if x.cls != y.cls {
        Registry.FirstMatchBothSymmetric(ss, x.cls, y.cls);
      }
      var r1, r2 := Registry.ResolveEqual(ss, x, y), Registry.ResolveEqual(ss, y, x);
      if r1.Some? {
        var i :| 0 <= i < |ss| && Registry.MatchesBoth(ss[i], x.cls, y.cls) && r1.value == ss[i].equal(x, y)
          && forall j :: 0 <= j < i ==> !Registry.MatchesBoth(ss[j], x.cls, y.cls);
        var k :| 0 <= k < |ss| && Registry.MatchesBoth(ss[k], y.cls, x.cls) && r2.value == ss[k].equal(y, x)
          && forall j :: 0 <= j < k ==> !Registry.MatchesBoth(ss[j], y.cls, x.cls);
        assert i == k by {
          assert forall s: Registry.Strategy :: Registry.MatchesBoth(s, x.cls, y.cls) == Registry.MatchesBoth(s, y.cls, x.cls);
        }
      }
    }
  }

  /** Two different objects: a `Value` first operand decides through its own
      `equals`; otherwise the first strategy matching both classes decides,
      and the answer is false when no strategy matches both. */
  lemma ObjectEqualSource(h: Host, o: ObjRef, p: ObjRef)
    requires o != p
    ensures o.isValue ==> (Equal(h, Obj(o), Obj(p)) <==> h.value.equals(o, Obj(p)))
    ensures !o.isValue && (forall i :: 0 <= i < |h.strategies| ==> !Registry.MatchesBoth(h.strategies[i], o.cls, p.cls)) ==>
      !Equal(h, Obj(o), Obj(p))
    ensures !o.isValue ==> forall i ::
      (0 <= i < |h.strategies| && Registry.MatchesBoth(h.strategies[i], o.cls, p.cls)
        && forall j :: 0 <= j < i ==> !Registry.MatchesBoth(h.strategies[j], o.cls, p.cls))
      ==> (Equal(h, Obj(o), Obj(p)) <==> h.strategies[i].equal(o, p))
  {
    if !o.isValue {
      var ss := h.strategies;
      var r := Registry.ResolveEqual(ss, o, p);
      assert Equal(h, Obj(o), Obj(p)) == r.GetOr(false);
      if r.Some? {
        var i :| 0 <= i < |ss| && Registry.MatchesBoth(ss[i], o.cls, p.cls) && r.value == ss[i].equal(o, p)
          && forall j :: 0 <= j < i ==> !Registry.MatchesBoth(ss[j], o.cls, p.cls);
        forall k | 0 <= k < |ss| && Registry.MatchesBoth(ss[k], o.cls, p.cls)
          && (forall j :: 0 <= j < k ==> !Registry.MatchesBoth(ss[j], o.cls, p.cls))
          ensures k == i
        {
        }
      }
    }
  }

  /** An object without `Value` hashes through the first strategy matching
      its class; only when none matches does the identity checksum apply. */
  lemma ObjectHashSource(h: Host, o: ObjRef)
    requires !o.isValue
    ensures (forall i :: 0 <= i < |h.strategies| ==> !h.strategies[i].matches(o.cls)) ==>
      Hash(h, Obj(o)) == h.crc32(h.objectHash(o))
    ensures forall i ::
      (0 <= i < |h.strategies| && h.strategies[i].matches(o.cls)
        && forall j :: 0 <= j < i ==> !h.strategies[j].matches(o.cls))
      ==> Hash(h, Obj(o)) == h.strategies[i].hash(o)
  {
    var r := Registry.ResolveHash(h.strategies, o);
    if r.Some? {
      var i :| 0 <= i < |h.strategies| && h.strategies[i].matches(o.cls) && r.value == h.strategies[i].hash(o)
        && forall j :: 0 <= j < i ==> !h.strategies[j].matches(o.cls);
      forall k | 0 <= k < |h.strategies| && h.strategies[k].matches(o.cls)
        && (forall j :: 0 <= j < k ==> !h.strategies[j].matches(o.cls))
        ensures k == i
      {
      }
    }
  }
}
