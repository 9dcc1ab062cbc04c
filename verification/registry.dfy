/**
  `ObjectEqualityRegistry`: an ordered set of equality strategies for classes
  that do not implement `Value`, looked up first-match-in-registration-order,
  with the answers memoised in a single-class and a class-pair cache.

  The PHP class keeps this in static fields; here the registry is an explicit
  immutable state, and every operation returns the next state along with its
  answer. `Valid` is the invariant that makes the caches sound: every cached
  answer is what a fresh scan of the strategy list would give.
 */
module Registry {
  import opened Wrappers
  import opened IntMath
  import opened Values

  /** A registered `ObjectEquality` class: its name, which identifies it, and
      its three static methods. */
  datatype Strategy = Strategy(
    name: ClassName,
    matches: ClassName -> bool,
    equal: (ObjRef, ObjRef) -> bool,
    hash: ObjRef -> Int64)

  datatype State = State(
    finalized: bool,
    strategies: seq<Strategy>,
    singleCache: map<ClassName, Option<Strategy>>,
    dualCache: map<string, Option<Strategy>>)

  /** The `LogicException` thrown by a registration after finalization. */
  datatype RegistryError = AlreadyFinalized(name: ClassName)

  /** The registry after a lookup, and the lookup's answer (`None` for PHP's null). */
  datatype Answer<T> = Answer(next: State, result: Option<T>)

  function Names(ss: seq<Strategy>): (ns: seq<ClassName>)
    ensures |ns| == |ss|
    ensures forall i :: 0 <= i < |ss| ==> ns[i] == ss[i].name
  {
    seq(|ss|, i requires 0 <= i < |ss| => ss[i].name)
  }

  predicate UniqueNames(ss: seq<Strategy>)
  {
    forall i, j :: 0 <= i < j < |ss| ==> ss[i].name != ss[j].name
  }

  predicate MatchesBoth(s: Strategy, c1: ClassName, c2: ClassName)
  {
    s.matches(c1) && s.matches(c2)
  }

  /** The scan of `getEqualityClassMatching`: the first strategy, in
      registration order, that matches the class. */
  function FirstMatch(ss: seq<Strategy>, c: ClassName): (r: Option<Strategy>)
    ensures r.None? <==> forall i :: 0 <= i < |ss| ==> !ss[i].matches(c)
    ensures r.Some? ==> exists i :: (0 <= i < |ss| && ss[i] == r.value && ss[i].matches(c)
      && forall j :: 0 <= j < i ==> !ss[j].matches(c))
  {
    if |ss| == 0 then None
    else if ss[0].matches(c) then Some(ss[0])
    else
      var r := FirstMatch(ss[1..], c);
      assert r.Some? ==> exists i :: (0 <= i < |ss| && ss[i] == r.value && ss[i].matches(c)
        && forall j :: 0 <= j < i ==> !ss[j].matches(c)) by {
        if r.Some? {
          var i :| 0 <= i < |ss[1..]| && ss[1..][i] == r.value && ss[1..][i].matches(c)
            && forall j :: 0 <= j < i ==> !ss[1..][j].matches(c);
          assert forall j :: 0 <= j < i + 1 ==> !ss[j].matches(c) by {
            forall j | 0 <= j < i + 1 ensures !ss[j].matches(c) {
              if j > 0 {
                assert ss[j] == ss[1..][j - 1];
              }
            }
          }
        }
      }
      r
  }

  /** The scan of `getEqualityClassMatchingBoth`: the first strategy, in
      registration order, that matches both classes. */
  function FirstMatchBoth(ss: seq<Strategy>, c1: ClassName, c2: ClassName): (r: Option<Strategy>)
    ensures r.None? <==> forall i :: 0 <= i < |ss| ==> !MatchesBoth(ss[i], c1, c2)
    ensures r.Some? ==> exists i :: (0 <= i < |ss| && ss[i] == r.value && MatchesBoth(ss[i], c1, c2)
      && forall j :: 0 <= j < i ==> !MatchesBoth(ss[j], c1, c2))
  {
    if |ss| == 0 then None
    else if ss[0].matches(c1) && ss[0].matches(c2) then Some(ss[0])
    else
      var r := FirstMatchBoth(ss[1..], c1, c2);
      assert r.Some? ==> exists i :: (0 <= i < |ss| && ss[i] == r.value && MatchesBoth(ss[i], c1, c2)
        && forall j :: 0 <= j < i ==> !MatchesBoth(ss[j], c1, c2)) by {
        if r.Some? {
          var i :| 0 <= i < |ss[1..]| && ss[1..][i] == r.value && MatchesBoth(ss[1..][i], c1, c2)
            && forall j :: 0 <= j < i ==> !MatchesBoth(ss[1..][j], c1, c2);
          assert forall j :: 0 <= j < i + 1 ==> !MatchesBoth(ss[j], c1, c2) by {
            forall j | 0 <= j < i + 1 ensures !MatchesBoth(ss[j], c1, c2) {
              if j > 0 {
                assert ss[j] == ss[1..][j - 1];
              }
            }
          }
        }
      }
      r
  }

  /** The pair scan does not depend on the order of the two classes. */
  lemma {:induction false} FirstMatchBothSymmetric(ss: seq<Strategy>, c1: ClassName, c2: ClassName)
    ensures FirstMatchBoth(ss, c1, c2) == FirstMatchBoth(ss, c2, c1)
    decreases |ss|
  {
    if |ss| > 0 {
      FirstMatchBothSymmetric(ss[1..], c1, c2);
    }
  }

  /** On one class, the pair scan finds what the single scan finds. */
  lemma {:induction false} FirstMatchBothSameClass(ss: seq<Strategy>, c: ClassName)
    ensures FirstMatchBoth(ss, c, c) == FirstMatch(ss, c)
    decreases |ss|
  {
    if |ss| > 0 {
      FirstMatchBothSameClass(ss[1..], c);
    }
  }

  /** PHP's `<` on two class names: lexicographic order of their characters. */
  function Less(a: string, b: string): bool
  {
    if |b| == 0 then false
    else if |a| == 0 then true
    else if a[0] != b[0] then a[0] < b[0]
    else Less(a[1..], b[1..])
  }

  /** Of two different strings exactly one is less than the other. */
  lemma {:induction false} LessTotal(a: string, b: string)
    requires a != b
    ensures Less(a, b) != Less(b, a)
  {
    if |a| > 0 && |b| > 0 && a[0] == b[0] {
      assert a == [a[0]] + a[1..] && b == [b[0]] + b[1..];
      LessTotal(a[1..], b[1..]);
    }
  }

  /** The pair cache key: both class names, the smaller first, joined by a space. */
  function DualKey(c1: ClassName, c2: ClassName): string
  {
    if Less(c1, c2) then c1 + " " + c2 else c2 + " " + c1
  }

  /** The pair cache key does not depend on the order of the two classes. */
  lemma DualKeySymmetric(c1: ClassName, c2: ClassName)
    ensures DualKey(c1, c2) == DualKey(c2, c1)
  {
    if c1 != c2 {
      LessTotal(c1, c2);
    }
  }

  /** The position of the first space in s, or |s| if there is none. */
  function FirstSpace(s: string): (n: nat)
    ensures n <= |s|
  {
    if |s| == 0 || s[0] == ' ' then 0 else 1 + FirstSpace(s[1..])
  }

  /** A class name cannot contain the separator, so the first space of a
      joined key sits right after the first name. */
  lemma {:induction false} FirstSpaceOfJoin(x: ClassName, y: string)
    ensures FirstSpace(x + " " + y) == |x|
    decreases |x|
  {
    if |x| > 0 {
      assert x[0] in x;
      assert (x + " " + y)[1..] == x[1..] + " " + y;
      FirstSpaceOfJoin(x[1..], y);
    }
  }

  /** So a joined key splits back into the names it was made of. */
  lemma JoinInjective(x: ClassName, y: string, u: ClassName, v: string)
    requires x + " " + y == u + " " + v
    ensures x == u && y == v
  {
    var k, k' := x + " " + y, u + " " + v;
    FirstSpaceOfJoin(x, y);
    FirstSpaceOfJoin(u, v);
    assert x == k[..|x|] && u == k'[..|u|];
    assert y == k[|x| + 1..] && v == k'[|u| + 1..];
  }

  /** Two class pairs share a cache key only when they are the same pair. */
  lemma DualKeyInjective(a: ClassName, b: ClassName, c: ClassName, d: ClassName)
    requires DualKey(a, b) == DualKey(c, d)
    ensures (a == c && b == d) || (a == d && b == c)
  {
    var lo1, hi1 := if Less(a, b) then a else b, if Less(a, b) then b else a;
    var lo2, hi2 := if Less(c, d) then c else d, if Less(c, d) then d else c;
    JoinInjective(lo1, hi1, lo2, hi2);
  }

  /** Every cached answer is the answer a fresh scan would give; caches are
      empty until the registry is finalized, and strategy names are unique. */
  ghost predicate Valid(st: State)
  {
    && UniqueNames(st.strategies)
    && (!st.finalized ==> st.singleCache == map[] && st.dualCache == map[])
    && (forall c :: c in st.singleCache ==> st.singleCache[c] == FirstMatch(st.strategies, c))
    && (forall c1: ClassName, c2: ClassName :: DualKey(c1, c2) in st.dualCache ==>
          st.dualCache[DualKey(c1, c2)] == FirstMatchBoth(st.strategies, c1, c2))
  }

  /** The registry at process start. */
  function Initial(): (st: State)
    ensures Valid(st) && !st.finalized && st.strategies == []
  {
    State(false, [], map[], map[])
  }

  /** `$equalityClasses[$name] = $name`: a new name is appended, a known name
      keeps its place, and every other entry is left alone. */
  function Put(ss: seq<Strategy>, s: Strategy): (r: seq<Strategy>)
    ensures s.name in Names(ss) ==> Names(r) == Names(ss)
    ensures s.name !in Names(ss) ==> Names(r) == Names(ss) + [s.name]
    ensures s.name !in Names(ss) ==> r == ss + [s]
    ensures s.name in Names(ss) ==>
      |r| == |ss| && forall i :: 0 <= i < |ss| && ss[i].name != s.name ==> r[i] == ss[i]
    ensures forall i :: 0 <= i < |r| && r[i].name == s.name ==> r[i] == s
    ensures UniqueNames(ss) ==> UniqueNames(r)
  {
    if s.name in Names(ss) then
      var r := seq(|ss|, i requires 0 <= i < |ss| => if ss[i].name == s.name then s else ss[i]);
      assert Names(r) == Names(ss);
      r
    else
      var r := ss + [s];
      assert Names(r) == Names(ss) + [s.name];
      r
  }

  /** `register`: refused with `AlreadyFinalized` once the registry is
      finalized, and then nothing changes. */
  function Register(st: State, s: Strategy): (r: Result<State, RegistryError>)
    ensures r.Failure? <==> st.finalized
    ensures r.Failure? ==> r.error == AlreadyFinalized(s.name)
    ensures r.Success? ==>
      !r.value.finalized && r.value.singleCache == st.singleCache && r.value.dualCache == st.dualCache
    ensures r.Success? ==> r.value.strategies == Put(st.strategies, s)
    ensures r.Success? && s.name in Names(st.strategies) ==>
      Names(r.value.strategies) == Names(st.strategies)
    ensures r.Success? && s.name !in Names(st.strategies) ==>
      Names(r.value.strategies) == Names(st.strategies) + [s.name]
    ensures Valid(st) && r.Success? ==> Valid(r.value)
  {
    if st.finalized then Failure(AlreadyFinalized(s.name))
    else Success(st.(strategies := Put(st.strategies, s)))
  }

  /** `finalize`: freezes the strategy list; everything else is kept. */
  function Finalize(st: State): (r: State)
    ensures r.finalized
    ensures r.strategies == st.strategies
    ensures r.singleCache == st.singleCache && r.dualCache == st.dualCache
    ensures Valid(st) ==> Valid(r)
  {
    st.(finalized := true)
  }

  /** `getEqualityClassMatching`: a cached answer if there is one, otherwise
      the scan's answer, which is then cached (a miss included). */
  function MatchOne(st: State, c: ClassName): (a: Answer<Strategy>)
    ensures a.next.finalized == st.finalized && a.next.strategies == st.strategies
    ensures a.next.dualCache == st.dualCache
    ensures a.next.singleCache == st.singleCache[c := a.result]
    ensures c in st.singleCache ==> a.next == st
    ensures Valid(st) ==> a.result == FirstMatch(st.strategies, c)
    ensures Valid(st) && st.finalized ==> Valid(a.next)
  {
    if c in st.singleCache then Answer(st, st.singleCache[c])
    else
      var found := FirstMatch(st.strategies, c);
      Answer(st.(singleCache := st.singleCache[c := found]), found)
  }

  /** `getEqualityClassMatchingBoth`: as `MatchOne`, for a pair of classes
      under their order-independent cache key. */
  function MatchBoth(st: State, c1: ClassName, c2: ClassName): (a: Answer<Strategy>)
    ensures a.next.finalized == st.finalized && a.next.strategies == st.strategies
    ensures a.next.singleCache == st.singleCache
    ensures a.next.dualCache == st.dualCache[DualKey(c1, c2) := a.result]
    ensures DualKey(c1, c2) in st.dualCache ==> a.next == st
    ensures Valid(st) ==> a.result == FirstMatchBoth(st.strategies, c1, c2)
    ensures Valid(st) && st.finalized ==> Valid(a.next)
  {
    var key := DualKey(c1, c2);
    if key in st.dualCache then Answer(st, st.dualCache[key])
    else
      var found := FirstMatchBoth(st.strategies, c1, c2);
      var next := st.(dualCache := st.dualCache[key := found]);
      assert Valid(st) && st.finalized ==> Valid(next) by {
        if Valid(st) && st.finalized {
          forall d1: ClassName, d2: ClassName | DualKey(d1, d2) in next.dualCache
            ensures next.dualCache[DualKey(d1, d2)] == FirstMatchBoth(next.strategies, d1, d2)
          {
            if DualKey(d1, d2) == key {
              DualKeyInjective(d1, d2, c1, c2);
              FirstMatchBothSymmetric(st.strategies, c1, c2);
            }
          }
        }
      }
      Answer(next, found)
  }

  /** What the registry's `hash` answers for an object once its strategy
      list is frozen: the first matching strategy's hash, or no match. */
  function ResolveHash(ss: seq<Strategy>, o: ObjRef): (r: Option<Int64>)
    ensures r.None? <==> forall i :: 0 <= i < |ss| ==> !ss[i].matches(o.cls)
    ensures r.Some? ==> exists i :: (0 <= i < |ss| && ss[i].matches(o.cls) && r.value == ss[i].hash(o)
      && forall j :: 0 <= j < i ==> !ss[j].matches(o.cls))
  {
    match FirstMatch(ss, o.cls)
    case Some(s) => Some(s.hash(o))
    case None => None
  }

  /** What the registry's `equal` answers for two objects once its strategy
      list is frozen: the verdict of the first strategy matching both classes,
      or no match. For two objects of one class this is the single-class scan. */
  function ResolveEqual(ss: seq<Strategy>, o1: ObjRef, o2: ObjRef): (r: Option<bool>)
    ensures r.None? <==> forall i :: 0 <= i < |ss| ==> !MatchesBoth(ss[i], o1.cls, o2.cls)
    ensures r.Some? ==> exists i :: (0 <= i < |ss| && MatchesBoth(ss[i], o1.cls, o2.cls)
      && r.value == ss[i].equal(o1, o2)
      && forall j :: 0 <= j < i ==> !MatchesBoth(ss[j], o1.cls, o2.cls))
  {
    var found := if o1.cls == o2.cls then FirstMatch(ss, o1.cls) else FirstMatchBoth(ss, o1.cls, o2.cls);
    FirstMatchBothSameClass(ss, o1.cls);
    match found
    case Some(s) => Some(s.equal(o1, o2))
    case None => None
  }

  /** `hash`: finalizes the registry, then asks the strategy matching the
      object's class. */
  function Hash(st: State, o: ObjRef): (a: Answer<Int64>)
    ensures a.next.finalized && a.next.strategies == st.strategies
    ensures a.next.dualCache == st.dualCache
    ensures a.next.singleCache.Keys == st.singleCache.Keys + {o.cls}
    ensures forall c :: c in st.singleCache ==> a.next.singleCache[c] == st.singleCache[c]
    ensures Valid(st) ==> Valid(a.next) && a.result == ResolveHash(st.strategies, o)
  {
    var found := MatchOne(Finalize(st), o.cls);
    Answer(found.next, if found.result.Some? then Some(found.result.value.hash(o)) else None)
  }

  /** `equal`: finalizes the registry, then asks the strategy matching the
      class of both objects, through the single-class cache when the classes
      coincide and the pair cache otherwise. */
  function Equal(st: State, o1: ObjRef, o2: ObjRef): (a: Answer<bool>)
    ensures a.next.finalized && a.next.strategies == st.strategies
    ensures o1.cls == o2.cls ==> a.next.dualCache == st.dualCache
    ensures o1.cls == o2.cls ==> a.next.singleCache.Keys == st.singleCache.Keys + {o1.cls}
    ensures o1.cls != o2.cls ==> a.next.singleCache == st.singleCache
    ensures o1.cls != o2.cls ==> a.next.dualCache.Keys == st.dualCache.Keys + {DualKey(o1.cls, o2.cls)}
    ensures forall c :: c in st.singleCache ==> a.next.singleCache[c] == st.singleCache[c]
    ensures forall k :: k in st.dualCache ==> a.next.dualCache[k] == st.dualCache[k]
    ensures Valid(st) ==> Valid(a.next) && a.result == ResolveEqual(st.strategies, o1, o2)
  {
    var st' := Finalize(st);
    var found := if o1.cls == o2.cls then MatchOne(st', o1.cls) else MatchBoth(st', o1.cls, o2.cls);
    FirstMatchBothSameClass(st.strategies, o1.cls);
    Answer(found.next, if found.result.Some? then Some(found.result.value.equal(o1, o2)) else None)
  }

  /** Registering a strategy a second time changes neither the number nor
      the order of the registered names. */
  lemma RegisterTwice(st: State, s: Strategy)
    requires !st.finalized
    ensures Register(st, s).Success?
    ensures Register(Register(st, s).value, s).Success?
    ensures Names(Register(Register(st, s).value, s).value.strategies) == Names(Register(st, s).value.strategies)
  {
  }

  /** Once any lookup has happened, registration is refused. */
  lemma LookupsBlockRegistration(st: State, o1: ObjRef, o2: ObjRef, s: Strategy)
    ensures Register(Hash(st, o1).next, s) == Failure(AlreadyFinalized(s.name))
    ensures Register(Equal(st, o1, o2).next, s) == Failure(AlreadyFinalized(s.name))
    ensures Register(Finalize(st), s) == Failure(AlreadyFinalized(s.name))
  {
  }

  /** A class (or pair of classes) is scanned at most once: asking again
      is answered from the cache, gives the same answer and changes nothing. */
  lemma RepeatedLookupsAreCached(st: State, o1: ObjRef, o2: ObjRef)
    ensures
      var first := Hash(st, o1);
      var again := Hash(first.next, o1);
      again.next == first.next && again.result == first.result
    ensures
      var first := Equal(st, o1, o2);
      var again := Equal(first.next, o1, o2);
      again.next == first.next && again.result == first.result
  {
  }

  /** Finalizing twice is finalizing once. */
  lemma FinalizeIdempotent(st: State)
    ensures Finalize(Finalize(st)) == Finalize(st)
  {
  }

  /** Strategy A matches class Foo, strategy B matches Foo and Bar, and A is
      registered first: two Foo instances are compared by A through the
      single-class lookup, a Foo and a Bar by B through the pair lookup, an
      unmatched class gets no answer, and registration is then closed. */
  lemma FirstRegisteredWins(foo1: ObjRef, foo2: ObjRef, bar: ObjRef, baz: ObjRef, late: Strategy)
    requires foo1.cls == "Foo" && foo2.cls == "Foo" && bar.cls == "Bar" && baz.cls == "Baz"
    ensures
      var a := Strategy("A", c => c == "Foo", (x, y) => true, x => 1);
      var b := Strategy("B", c => c == "Foo" || c == "Bar", (x, y) => false, x => 2);
      var st0 := Register(Initial(), a);
      st0.Success? && Register(st0.value, b).Success? &&
      var st := Register(st0.value, b).value;
      var q1 := Equal(st, foo1, foo2);
      var q2 := Equal(q1.next, foo1, bar);
      var q3 := Hash(q2.next, baz);
      var q4 := Equal(q3.next, baz, foo1);
      && q1.result == Some(true)
      && q2.result == Some(false)
      && q3.result == None
      && q4.result == None
      && Register(q4.next, late).Failure?
  {
    var a := Strategy("A", c => c == "Foo", (x, y) => true, x => 1);
    var b := Strategy("B", c => c == "Foo" || c == "Bar", (x, y) => false, x => 2);
    var st0 := Register(Initial(), a).value;
    assert st0.strategies == [a];
    var st := Register(st0, b).value;
    assert st.strategies == [a, b] by {
      assert Names(st0.strategies) == ["A"];
      assert Names(st.strategies) == ["A", "B"];
    }
    assert Valid(st);
    var ss := st.strategies;
    assert "Bar" != "Foo" && "Baz" != "Foo" && "Baz" != "Bar" by {
      assert "Bar"[0] != "Foo"[0] && "Baz"[0] != "Foo"[0] && "Baz"[2] != "Bar"[2];
    }
    assert FirstMatch(ss, "Foo") == Some(a);
    assert FirstMatchBoth(ss, "Foo", "Bar") == Some(b);
    assert FirstMatch(ss, "Baz") == None;
    assert FirstMatchBoth(ss, "Baz", "Foo") == None;
    var q1 := Equal(st, foo1, foo2);
    assert q1.result == Some(true);
    var q2 := Equal(q1.next, foo1, bar);
    assert q2.result == Some(false);
    var q3 := Hash(q2.next, baz);
    assert q3.result == None;
  }
}
