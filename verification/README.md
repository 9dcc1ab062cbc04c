# value-php equality and hashing, modelled in Dafny

This project models the core of the PHP library `value-php`. The library gives PHP a
Java-style value-equality and hash-code protocol:

- `Value\equal($a, $b)` and `Value\hash($v)` dispatch on the kind of a runtime value
  (null, bool, int, string, array, object).
- Objects either implement the `Value` interface (`equals`/`hashCode`), or are
  matched by strategies registered in `ObjectEqualityRegistry`, or fall back to
  identity.
- `Value\hashValues` and `Value\hashKeysAndValues` combine hashes with the
  `31 * acc + h` recurrence, seeded with 1.
- `Value\IntMath` supplies 64-bit two's-complement `add`, `negate` and
  `multiplyBy31`. PHP's own `+` and unary `-` turn into floats on overflow, so the
  library cannot rely on them.

Files and modules:

| file | module | models |
|---|---|---|
| `bits.dfy` | `Bits` | bitwise `&`, `^` and `<< 1` on 64-bit patterns (naturals below 2^64) |
| `intmath.dfy` | `IntMath` | `PHP_INT_MIN`/`PHP_INT_MAX`, `Wrap` (reduction into the int64 range), `add` including its carry-ripple loop, `negate`, `<<`, `multiplyBy31` |
| `wrappers.dfy` | `Wrappers` | `Option` (PHP's `null` answers, `??`) and `Result` (the thrown `LogicException`) |
| `values.dfy` | `Values` | the closed value type `Val`, array keys, `array_keys`, `$array[$key]` |
| `value.dfy` | `ValueInterface` | the `Value` interface: its two methods as function parameters and its documented contract as predicates |
| `registry.dfy` | `Registry` | `ObjectEqualityRegistry` as an explicit immutable state machine with its two caches and the cache-soundness invariant `Valid` |
| `dispatch.dfy` | `Dispatch` | `equal`, `hash`, `hashValues`, `hashKeysAndValues` |
| `dispatch_properties.dfy` | `DispatchProperties` | laws of `equal` and `hash` |

Foreign code becomes function-valued parameters:

- `Dispatch.Host` holds `crc32` (typed to return values in [0, 2^32)), `spl_object_hash`,
  the `Value` methods and the registry's strategy list.
- `Registry.Strategy` holds a registered class's `matches`, `equal` and `hash`.

The registry is modelled as an explicit state. Each operation returns the next state
together with its answer. `Registry.Valid` is the invariant that every cache entry
equals a fresh scan. It holds because caches are written only after finalization,
and finalization blocks `register`. Given `Valid`, `Registry.Equal` and
`Registry.Hash` return exactly `Registry.ResolveEqual` and `Registry.ResolveHash`,
which are pure functions of the frozen strategy list. `Dispatch` therefore consults
those pure functions.

Two behaviours of the code worth noting:

- Registering the same strategy class twice is a no-op. The class stays at its first
  position and the count does not change, because `$equalityClasses` is keyed by
  class name. It is neither a second entry nor an error.
- `equal` is asymmetric not only between objects and non-objects. A `Value` object's
  own `equals` may accept any operand, so operand order can matter there too.

## Model

| member | source | states |
|---|---|---|
| IntMath.Add | src/functions.php:132-150 | the result is the int64 value congruent to a+b modulo 2^64, and it is exactly a+b whenever a+b fits |
| IntMath.AddCarryRipple | src/functions.php:132-150 | `add`'s algorithm (native sum if it stays an int, else the do-while carry loop on the bit patterns) terminates and returns exactly the wrapped sum `Add(a, b)` |
| IntMath.RippleStep | src/functions.php:139-147 | one round (`carry = a & b; a ^= b; b = carry << 1`) keeps a+b up to a multiple of 2^64 and clears one more low bit of b, so b is 0 within 64 rounds |
| Bits.XorPlusCarry | src/functions.php:140-146 | XOR plus twice AND equals the sum: the half-adder identity the carry loop relies on |
| IntMath.AddWrapsAtMax | src/functions.php:132-150 | add(PHP_INT_MAX, 1) == PHP_INT_MIN and add(PHP_INT_MIN, -1) == PHP_INT_MAX |
| IntMath.WrapCongruent | src/functions.php:132-150 | two integers equal modulo 2^64 reduce to the same int64 value, so every wraparound result is determined by its residue |
| IntMath.ShiftLeft | src/functions.php:122-124 | `n << s` for a shift below 64 is n * 2^s reduced modulo 2^64 into the int64 range |
| Bits.BitAnd | src/functions.php:141 | bitwise `&` on 64-bit patterns; it carries no ensures of its own, and its laws are `XorPlusCarry`, `AndBound` and `AndKeepsLowZeros` |
| Bits.BitXor | src/functions.php:144 | bitwise `^` on 64-bit patterns; it carries no ensures of its own, and its laws are `XorPlusCarry`, `XorZero`, `XorSelf` and `XorBound` |
| Bits.ShiftLeft1 | src/functions.php:146 | `carry << 1` on a 64-bit pattern stays below 2^64 and is 2 * carry, minus 2^64 when the top bit falls off |
| IntMath.Negate | src/functions.php:155-161 | negate is two's-complement negation: -a when a is not PHP_INT_MIN, and PHP_INT_MIN maps to itself |
| IntMath.MultiplyBy31 | src/functions.php:119-125 | the result is 31*n reduced to int64 for every n, including PHP_INT_MIN, which maps to itself |
| Dispatch.Step | src/functions.php:87-91 | the inline step with its PHP_INT_MIN branch equals add(multiplyBy31(acc), h) |
| Dispatch.Combine | src/functions.php:85-93 | the accumulation seeded with 1 equals the exact, unbounded Horner polynomial (1 for no elements, 31 * P(prefix) + last otherwise) reduced modulo 2^64, so overflow along the way never changes the result's residue |
| Dispatch.HashValues | src/functions.php:83-94 | hashValues([]) == 1; hashValues([v]) == add(31, hash(v)), which never equals hash(v) |
| Dispatch.HashKeysAndValues | src/functions.php:100-111 | an empty array hashes to 1; otherwise the result is the same recurrence over hash(key) ^ hash(value) in array order |
| Dispatch.KeyHash | src/functions.php:105-107 | `hash($key)` for an int or string key; it carries no ensures of its own, and `KeyHashIsHash` states that it is `hash` of the key as a value |
| Dispatch.Contributions | src/functions.php:105-107 | one contribution `hash($key) ^ hash($value)` per entry, in array order; its ensures states only the length, and `HashKeysAndValues`'s contract gives the combination |
| Dispatch.Xor | src/functions.php:105-107 | `^` on two int64 values is 0 exactly when they are equal, and x ^ 0 == x |
| Dispatch.Equal | src/functions.php:13-47 | the definition of `equal`, dispatching on the first operand's kind; it carries no ensures of its own, and its laws are stated by `EqualOfScalars`, `ArrayEqualPositional`, `SameInstanceEqual`, `MixedKindsAsymmetric`, `ObjectEqualSource`, `RegistryEqualSymmetric` and `EqualReflexive`/`EqualSymmetric`/`EqualTransitive` |
| Dispatch.Hash | src/functions.php:53-77 | the definition of `hash` by kind; it carries no ensures of its own, and its laws are stated by `HashByKind`, `ObjectHashSource`, `EqualImpliesSameHash` and `ValueObjectsLaws` |
| DispatchProperties.HashByKind | src/functions.php:53-77 | hash(null) == 0, hash(true) == 1231, hash(false) == 1237, hash(n) == n, a string's hash is its crc32, within [0, 2^32), an array's hash is hashKeysAndValues of its entries, and a `Value` object's hash is its own hashCode |
| DispatchProperties.EqualOfScalars | src/functions.php:45-46 | for null, bools, ints and strings as first operand, equal(x, y) holds iff x and y are the same kind with the same value (`===`) |
| DispatchProperties.KeyHashIsHash | src/functions.php:105-107 | an array key contributes the hash of the int or string it is |
| DispatchProperties.HashValuesAppend | src/functions.php:86-92 | appending v to the sequence gives add(multiplyBy31(previous hash), hash(v)): a left fold in sequence order |
| DispatchProperties.ArrayEqualPositional | src/functions.php:28-43 | an array equals v2 iff v2 is an array with the same count, the same keys in the same order, and pairwise equal values |
| DispatchProperties.ReorderedKeysUnequal | src/functions.php:35-37 | two arrays whose key lists are permutations of each other but differ in order are unequal, in either operand order, whatever their values |
| DispatchProperties.ReorderedKeysExample | src/functions.php:35-37 | example: [0 => 7, 1 => 8] and [1 => 8, 0 => 7] have the same value under every key and are still unequal |
| DispatchProperties.EqualReflexive | src/functions.php:13-47 | equal(x, x) for every value, objects included |
| DispatchProperties.EqualFlips | src/functions.php:28-46 | if an object-free x equals y, then y equals x |
| DispatchProperties.EqualSymmetric | src/functions.php:28-46 | on object-free values, equal(x, y) iff equal(y, x) |
| DispatchProperties.EqualTransitive | src/functions.php:28-46 | from an object-free x, equal(x, y) and equal(y, z) imply equal(x, z) |
| DispatchProperties.EqualImpliesSameHash | src/functions.php:13-111 | if an object-free x equals y, then hash(x) == hash(y) |
| DispatchProperties.MixedKindsAsymmetric | src/functions.php:15-46 | a non-object never equals an object, while an object equals a non-object exactly when it is a `Value` whose equals accepts it |
| DispatchProperties.SameInstanceEqual | src/functions.php:17-19 | the same object instance is always equal to itself, whatever its class |
| DispatchProperties.NoObjectEqualsNull | src/Value.php:22 | under the contract's equals(null) == false, no object equals null in either operand order |
| DispatchProperties.ValueObjectsLaws | src/Value.php:14-39 | under the `Value` contract, equal on `Value` objects is symmetric and transitive, and equal `Value` objects have equal hashes |
| DispatchProperties.RegistryEqualSymmetric | src/ObjectEqualityRegistry.php:47-61 | for two non-`Value` objects, either operand order picks the same strategy, so equal is symmetric when the strategies' equal are |
| DispatchProperties.ObjectEqualSource | src/functions.php:20-26 | for two different objects: a `Value` first operand gives its own equals; otherwise the first strategy matching both classes decides, and the answer is false when none matches both |
| DispatchProperties.ObjectHashSource | src/functions.php:62-66 | a non-`Value` object hashes with the first strategy matching its class; the identity checksum is used only when no strategy matches |
| Registry.FirstMatch | src/ObjectEqualityRegistry.php:72-78 | the scan returns the first strategy in registration order whose matches(class) holds, and null iff none does |
| Registry.FirstMatchBoth | src/ObjectEqualityRegistry.php:94-100 | the scan returns the first strategy matching both classes, and null iff none does |
| Registry.FirstMatchBothSymmetric | src/ObjectEqualityRegistry.php:84-100 | the pair scan gives the same answer for (c1, c2) and (c2, c1) |
| Registry.FirstMatchBothSameClass | src/ObjectEqualityRegistry.php:54-58 | on two equal classes the pair scan agrees with the single-class scan |
| Registry.Less | src/ObjectEqualityRegistry.php:86 | PHP's `<` on two class names, as character-by-character order; it carries no ensures of its own, and `LessTotal` states that it decides every pair of different names |
| Registry.LessTotal | src/ObjectEqualityRegistry.php:86 | of two different class names exactly one is less than the other |
| Registry.DualKey | src/ObjectEqualityRegistry.php:86-88 | the pair cache key, the smaller name, a space, then the larger; it carries no ensures of its own, and `DualKeySymmetric`/`DualKeyInjective` state its laws |
| Registry.DualKeySymmetric | src/ObjectEqualityRegistry.php:86-88 | the pair cache key is the same for (c1, c2) and (c2, c1) |
| Registry.DualKeyInjective | src/ObjectEqualityRegistry.php:86-88 | two class pairs share a pair cache key only if they are the same unordered pair, because class names contain no space |
| Registry.Put | src/ObjectEqualityRegistry.php:25 | a new name is appended at the end (`ss + [s]`); a known name keeps its position, the length stays the same and every entry with another name is unchanged; the entry under that name is the new class afterwards, and names stay unique |
| Registry.Register | src/ObjectEqualityRegistry.php:14-26 | fails with the finalization error exactly when finalized, and nothing changes then; otherwise the strategy list is `Put`'s result (so the name is stored once, other entries untouched), the caches are unchanged, the registry stays unfinalized, and the invariant holds |
| Registry.Finalize | src/ObjectEqualityRegistry.php:28-31 | sets finalized and changes nothing else |
| Registry.Initial | src/ObjectEqualityRegistry.php:6-12 | the start state is unfinalized, empty and satisfies the invariant |
| Registry.MatchOne | src/ObjectEqualityRegistry.php:66-79 | under the invariant the answer, cached or not, is the fresh scan's answer; afterwards the cache is the old cache with exactly this class's answer (null included) added, so no entry is ever removed or changed; a cache hit changes nothing; the invariant is kept once the registry is finalized |
| Registry.MatchBoth | src/ObjectEqualityRegistry.php:84-101 | as MatchOne for the pair scan: the pair cache afterwards is the old one with exactly the order-independent pair key's answer added; the invariant is kept once the registry is finalized |
| Registry.ResolveHash | src/ObjectEqualityRegistry.php:36-42 | the answer is the hash of the first strategy matching the object's class, or null iff none matches |
| Registry.ResolveEqual | src/ObjectEqualityRegistry.php:47-61 | the answer is the verdict of the first strategy matching both classes, or null iff none does; for one class the single-class scan gives the same answer |
| Registry.Hash | src/ObjectEqualityRegistry.php:36-42 | finalizes the registry; leaves the pair cache alone; the single-class cache keeps every earlier entry and gains exactly the object's class; under the invariant returns ResolveHash and keeps the invariant |
| Registry.Equal | src/ObjectEqualityRegistry.php:47-61 | finalizes the registry; for one class the single-class cache gains exactly that class and the pair cache is untouched, for two classes the pair cache gains exactly their key and the single-class cache is untouched; earlier entries of both caches survive; under the invariant returns ResolveEqual and keeps the invariant |
| Registry.RegisterTwice | src/ObjectEqualityRegistry.php:25 | registering the same strategy twice leaves the same names in the same order as registering it once |
| Registry.RepeatedLookupsAreCached | src/ObjectEqualityRegistry.php:66-101 | a second hash or equal lookup for the same class(es) is answered from the cache: same answer, no state change, so no class is scanned twice |
| Registry.LookupsBlockRegistration | src/ObjectEqualityRegistry.php:21-49 | after hash, equal or finalize, register fails with the finalization error |
| Registry.FinalizeIdempotent | src/ObjectEqualityRegistry.php:28-31 | finalizing twice is the same as finalizing once |
| Registry.FirstRegisteredWins | src/ObjectEqualityRegistry.php:47-101 | with A (Foo) registered before B (Foo, Bar): A decides Foo vs Foo, B decides Foo vs Bar, an unmatched class gets null, and later registration fails |
| Values.Keys | src/functions.php:35 | `array_keys`: one key per entry, the i-th key being the i-th entry's key |
| Values.ValueAt | src/functions.php:39 | `$array[$key]` on a missing key gives null; the present case is `ValueAtFirst` |
| Values.ValueAtFirst | src/functions.php:39 | `$array[$key]` yields the value at the first entry whose key is k |
| Values.ValueAtPosition | src/functions.php:39 | in an array with distinct keys, `$array[$key]` for the i-th key is the i-th value |

## Left out

- `crc32` and `spl_object_hash` are foreign functions. They are parameters of `Dispatch.Host`, and `crc32` is only known to return values in [0, 2^32). The CRC-32 algorithm is not modelled.
- Floats are not a value kind. PHP's `===` on floats (NaN is not equal to itself) and float-to-string conversion are host floating-point behaviour.
- The bodies of `Value::equals`/`hashCode` implementations and of registered strategies are external code. They are function-valued parameters. The `Value` contract is stated as predicates (`ValueInterface.Contract`) and assumed only where a lemma says so.
- The `assert(is_a(...))` check in `register` is not modelled. A `Registry.Strategy` record always has the three methods an `ObjectEquality` class must provide.
- `src/ObjectEquality.php` declares an interface with no behaviour. It appears only as the `Registry.Strategy` record.
- Static fields are not modelled as globals. The registry is an explicit state value, and concurrency is not modelled because the library has none.
- `Dispatch` does not thread registry states through its calls. It reads the strategy list through `Registry.ResolveEqual`/`ResolveHash`, which the registry functions are proved to return under `Registry.Valid`. This leaves out two side effects of the registry lookups that `equal` and `hash` make (src/functions.php:26, 66). The first is which cache entries get filled. The second is that the lookups finalize the registry (src/ObjectEqualityRegistry.php:38, 49), so `Dispatch` cannot say which of its calls close registration; `Registry.LookupsBlockRegistration` states that effect for the registry operations themselves. Answers match only when the strategy list no longer changes, i.e. all registration happens before the first lookup.
- The early `return false` inside the array loop of `equal` is a conjunction in the model. The result is the same. What the model does not say is that the PHP code skips the remaining comparisons, and with them their calls to foreign `equals` and strategy code, their registry cache writes and their finalization of the registry.
- Array keys are already normalised, so a numeric string key is an `IntKey`. PHP does this when an array is built, outside this library.
- PHP's `<` compares numeric strings numerically. Class names are never numeric, so `Registry.Less` is plain character order.
- `hashValues` and `hashKeysAndValues` accept any iterable (src/functions.php:80, 97). The model gives `hashValues` a sequence of values and `hashKeysAndValues` an array's entries, so its keys are ints or strings. A generator may yield keys of any kind (objects, arrays, null, floats), which the PHP code hashes with the full `hash`; such inputs are not modelled.
- DispatchProperties.EqualSymmetric: stated for object-free values only. Objects make `equal` depend on foreign `equals` and strategies, which may disagree by operand order (see `MixedKindsAsymmetric`, `RegistryEqualSymmetric`).
- DispatchProperties.EqualTransitive: stated from an object-free first operand only, for the same reason.
- DispatchProperties.EqualImpliesSameHash: stated from an object-free first operand only. For objects the code does not guarantee it. `equal` on two classes uses the strategy matching both classes, while each object's `hash` uses the strategy matching its own class, and these can differ. For `Value` objects see `ValueObjectsLaws`.
- DispatchProperties.ValueObjectsLaws: covers objects whose classes implement `Value`. The contract says nothing about `equals` against non-`Value` operands.
- Anonymous classes are excluded by `Values.ClassName`, which forbids spaces: `get_class` names such an object `class@anonymous` followed by a NUL byte and the defining file's path, and the path may contain spaces. The pair cache key of the PHP code would still not collide for them, but `Registry.DualKeyInjective` is proved only for space-free names.
- PHP resources go through the `default` branches of `equal` and `hash` (src/functions.php:46, 75: `===` and `crc32` of the string cast). They are not a value kind of the model.
- 32-bit PHP builds are not modelled. `IntMath` fixes PHP_INT_SIZE at 8 bytes, so `MIN`/`MAX` are the 64-bit bounds.
- PHP strings are byte strings. The model's `string` is a sequence of characters, so `crc32` is a parameter over that sequence and no byte encoding is modelled.
- Self-referential arrays, which PHP references can build, make `equal` and `hash` recurse without end (src/functions.php:39, 69, 103). `Val` is a well-founded datatype, so no such value exists in the model and every call terminates.
