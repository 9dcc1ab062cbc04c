/**
  The `Value` interface: objects that supply their own `equals` and
  `hashCode`. Implementations are foreign code, so the two methods are
  function-valued parameters and the interface's documented contract is a
  predicate the dispatch lemmas take as a hypothesis. Being pure functions,
  the methods are consistent across calls and their hash codes are stable
  for the whole execution, as the interface demands.
 */
module ValueInterface {
  import opened IntMath
  import opened Values

  /** `$x->equals($y)` and `$x->hashCode()` for objects whose class
      implements `Value` (only consulted when `isValue` holds). */
  datatype ValueMethods = ValueMethods(equals: (ObjRef, Val) -> bool, hashCode: ObjRef -> Int64)

  ghost predicate Reflexive(m: ValueMethods)
  {
    forall x: ObjRef | x.isValue :: m.equals(x, Obj(x))
  }

  ghost predicate Symmetric(m: ValueMethods)
  {
    forall x: ObjRef, y: ObjRef | x.isValue && y.isValue ::
      m.equals(x, Obj(y)) <==> m.equals(y, Obj(x))
  }

  ghost predicate Transitive(m: ValueMethods)
  {
    forall x: ObjRef, y: ObjRef, z: ObjRef | x.isValue && y.isValue && z.isValue ::
      m.equals(x, Obj(y)) && m.equals(y, Obj(z)) ==> m.equals(x, Obj(z))
  }

  ghost predicate NeverEqualsNull(m: ValueMethods)
  {
    forall x: ObjRef | x.isValue :: !m.equals(x, Null)
  }

  /** Equal objects have equal hash codes. */
  ghost predicate HashAgreesWithEquals(m: ValueMethods)
  {
    forall x: ObjRef, y: ObjRef | x.isValue && y.isValue && m.equals(x, Obj(y)) ::
      m.hashCode(x) == m.hashCode(y)
  }

  /** The general contract every implementation of `Value` must keep. */
  ghost predicate Contract(m: ValueMethods)
  {
    && Reflexive(m)
    && Symmetric(m)
    && Transitive(m)
    && NeverEqualsNull(m)
    && HashAgreesWithEquals(m)
  }
}
