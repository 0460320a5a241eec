# Constantine: constancy check and decompose/rebuild protocol, in Dafny

This project models the core of Constantine, a Java library of *constants*:
value classes that can take themselves apart into a fixed series of
`Constable`s and be rebuilt from a nominal recipe (a `DynamicConstantDesc`,
the dynamically-computed constants of sections 4.4.13 and 5.4.3.6 of the Java
Virtual Machine Specification).

The model covers:

- **`Constant.isConstant`** (`validator.dfy`): the recursive check over a table of
  type information, as an acyclic definition `IsConstant` and as the Java
  method's own step-by-step evaluation `Check`, which may fail to terminate.
  The two are proved to agree.
- **`serial()` / `canonicalParameters()`** (`decomposition.dfy`): the record default
  that classifies each component (a Constable passes, a `Constable[]` is
  wrapped in `Array`, null stays null, anything else is a deconstruction
  error); hand-written decompositions; `UnitConstant`; and the
  `fromConstable` wrapper.
- **`describeConstable` and `Utilities.getArguments`** (`recipe.dfy`): slot 0 is
  the constructor signature, then one slot per serial element. Nested
  constants are described recursively, and the recipe is tagged with its
  bootstrap (MAKE, ARRAY or the canonical factory).
- **`Constant.bootstrap` / `bootstrapArray` and recipe resolution**
  (`resolver.dfy`). These lead to the round-trip theorem `RoundTrip`.
- **`validate()`** for the three interfaces (`validation.dfy`).
- **`Constantive`** delegation through `constant()` (`constantive.dfy`).
- **`Canonical`** (`canonical.dfy`): the factory name, the recipe, and the
  documented `intern()` contract, proved of a registry that implements it.
- **The `Array` record as a class** over a private Dafny `array`
  (`array_container.dfy`): defensive copies, `toArray` into the caller's
  array, `Set.of`-based membership, refused mutators, and element-wise
  equality and hashing.
- **The records of the repository's test suite as concrete scenarios**
  (`scenarios.dfy`).

Reflection is replaced by data. A runtime object is a `Value`. An instance of
a constant class carries its class declaration, as a JVM object carries its
class. Constructor and factory lookup is a `Lookup` table keyed by
(class, exact parameter list). The Java behaviour the protocol depends on is
threaded through as a `Revision`: `AsWritten` follows the code, and
`Corrected` repairs the two defects listed under Findings.

Three facts about the code shape the model:
- `isConstant` accepts a primitive, an enum, a `Record`, a `java.*` Constable
  or a `Constant` subtype, and nothing else, so an array class is never
  constant (`Validator.ArrayTypesAreNotConstant`).
- Only `Utilities.getArguments` (used by `Canonical`) writes the null marker
  for a null serial element; `Constant.describeConstable` dereferences it
  (Findings, row 1).
- `Canonical.describeConstable` tags its recipe with `BOOTSTRAP_CANON` and the
  factory name. The definition of `BOOTSTRAP_CANON` is not part of this model,
  so replaying a canonical recipe through the named static factory is not
  modelled (see Left out).

## Model

| member | source | states |
|---|---|---|
| Validator.IsJavaConstant | src/main/java/org/valross/constantine/Constant.java:57-60 | defines `isJavaConstant`: a primitive, an enum, `java.lang.Record`, or a Constable whose package starts with `java.` |
| Validator.IsConstant | src/main/java/org/valross/constantine/Constant.java:31-42 | defines the `isConstant` rule on an acyclic table: a built-in constant, or a `Constant` subtype whose public instance fields are all final and of constant type and whose superclass is absent, `Object` or constant |
| Validator.Check | src/main/java/org/valross/constantine/Constant.java:31-42 | the method as executed: built-in test, `Constant` test, field loop, then the superclass, with `None` when the recursion is deeper than the given depth |
| Validator.CheckFields | src/main/java/org/valross/constantine/Constant.java:34-39 | the loop over `getFields()`: static fields skipped, false at the first non-final field or field of non-constant type |
| Validator.JavaConstantsAreConstant | src/main/java/org/valross/constantine/Constant.java:57-60 | primitives, enums, `java.lang.Record` and Constables in a `java.*` package are constant |
| Validator.OthersAreNotConstant | src/main/java/org/valross/constantine/Constant.java:31-33 | a type that is neither such a built-in nor a `Constant` subtype is not constant |
| Validator.ArrayTypesAreNotConstant | src/main/java/org/valross/constantine/Constant.java:31-33 | no array class is constant, whatever its element type |
| Validator.ConstantTypeRules | src/main/java/org/valross/constantine/Constant.java:34-41 | a `Constant` type is constant iff every non-static public field is final and of constant type, and its superclass is absent, `Object` or constant |
| Validator.MutableFieldBreaksConstancy | src/main/java/org/valross/constantine/Constant.java:37 | one non-final public instance field makes a non-built-in type non-constant |
| Validator.CheckAgrees | src/main/java/org/valross/constantine/Constant.java:31-42 | on an acyclic table, the Java method's field-by-field evaluation returns exactly `IsConstant` when allowed more nested calls than the type's rank |
| Validator.CheckFieldsAgrees | src/main/java/org/valross/constantine/Constant.java:34-39 | the field loop (static fields skipped, first non-final or non-constant field stops it) answers "all instance fields final and constant" |
| Validator.SelfReferenceDiverges | src/main/java/org/valross/constantine/Constant.java:31-42 | a `Constant` type with a public final field of its own type, preceded only by static fields and final fields of built-in constant types, makes the method recurse without end, at every depth |
| Validator.SkippedFieldsPassThrough | src/main/java/org/valross/constantine/Constant.java:34-39 | static fields and final fields of built-in constant types never end the field loop: it ends as it does on the fields after them |
| Decomposition.ClassifyAll | src/main/java/org/valross/constantine/RecordConstant.java:26-38 | the component loop of `serial()`: each component classified in order, stopping at the first refusal; on success one entry per component |
| Decomposition.Parameters | src/main/java/org/valross/constantine/RecordConstant.java:41-48 | the `canonicalParameters()` dispatch: empty for a unit constant, otherwise the declared parameter types |
| Decomposition.Classify | src/main/java/org/valross/constantine/RecordConstant.java:29-36 | a component passes iff it is a Constable, a `Constable[]` or null; an array becomes an Array of the same elements; any other value fails with an error naming the record and its runtime class |
| Decomposition.ClassifyAllAt | src/main/java/org/valross/constantine/RecordConstant.java:26-38 | the record `serial()` succeeds iff every component passes, element i is component i classified, and a failure reports the first refused component |
| Decomposition.ConstableComponentsPassThrough | src/main/java/org/valross/constantine/RecordConstant.java:30-35 | a record whose components are all Constables or null serialises to exactly those components |
| Decomposition.RecordSerial | src/main/java/org/valross/constantine/RecordConstant.java:21-39 | the Java loop that fills the argument array index by index computes the classified component list |
| Decomposition.RecordCanonicalParameters | src/main/java/org/valross/constantine/RecordConstant.java:41-48 | one parameter per record component, entry i being component i's declared type |
| Decomposition.Serial | src/main/java/org/valross/constantine/RecordConstant.java:21-39 | a unit constant gives nothing, a hand-written `serial()` its stored values, a record one entry per component |
| Decomposition.SerialMatchesParameters | src/main/java/org/valross/constantine/RecordConstant.java:25-27 | on a well-formed instance, a successful `serial()` has one entry per canonical parameter |
| Decomposition.FromConstable | src/main/java/org/valross/constantine/Constant.java:117-133 | for any Constable or null, the wrapper's `serial()` is exactly that one value and its parameters are `[Constable]` |
| Decomposition.UnitDecomposition | src/main/java/org/valross/constantine/Constant.java:139-151 | a unit constant has empty `serial()` and empty `canonicalParameters()` |
| Recipe.ElementPolicy | src/main/java/org/valross/constantine/Constant.java:102-106 | as written the element loop dereferences a null element; the corrected loop stores the null marker |
| Recipe.Describe | src/main/java/org/valross/constantine/Constant.java:93-110 | a constant's recipe has `serial().length + 1` arguments, slot 0 the `void(canonicalParameters)` signature and its class as type, and is tagged `MAKE` with the default name, or with the canonical bootstrap and the factory name for a canonical constant; null, plain Java arrays and non-Constables have none |
| Recipe.Arguments | src/main/java/org/valross/constantine/Utilities.java:10-26 | a failing `serial()` leaves no argument list; otherwise it has `serial().length + 1` entries with the signature in slot 0 |
| Recipe.Slots | src/main/java/org/valross/constantine/Constant.java:102-106 | the element loop shared by `describeConstable`, `getArguments` (Utilities.java:18-23) and `Array.describeConstable` (Array.java:46-50): one slot per element in order, stopping at the first failure |
| Recipe.Slot | src/main/java/org/valross/constantine/Utilities.java:19-22 | one element's slot: the null marker or a dereference failure for null, the element itself for a `ConstantDesc`, otherwise its own recipe |
| Recipe.SlotsAt | src/main/java/org/valross/constantine/Constant.java:102-106 | the element loop succeeds iff every element's slot does, slot i comes from element i, and a failure is the first failing element's |
| Recipe.ArgumentsLayout | src/main/java/org/valross/constantine/Utilities.java:17-24 | slot i+1 is element i: the null marker for null, the element itself when it is a `ConstantDesc`, its own description otherwise |
| Recipe.ArgumentsFailure | src/main/java/org/valross/constantine/Utilities.java:18-23 | the argument list fails iff some element cannot be described |
| Recipe.DescribeInto | src/main/java/org/valross/constantine/Utilities.java:18-23 | the loop writes element i's slot at offset + i, touches no other position, and stops at the first element that cannot be described |
| Recipe.GetArguments | src/main/java/org/valross/constantine/Utilities.java:10-26 | the imperative `getArguments` (fresh array, loop over slots 1..n, then slot 0) computes `Arguments` with the null marker |
| Recipe.DescribeConstant | src/main/java/org/valross/constantine/Constant.java:93-110 | the imperative `describeConstable` of a plain or record constant computes `Describe` |
| Recipe.ArrayRecipeLayout | src/main/java/org/valross/constantine/Array.java:42-52 | an Array's recipe has one slot per element, with no signature, and slot i describes element i |
| Recipe.ArrayWithNullHasNoRecipe | src/main/java/org/valross/constantine/Array.java:46-50 | an Array holding a null element cannot be described (the loop dereferences it) |
| Resolver.Fits | src/main/java/org/valross/constantine/Constant.java:72 | the conversions of `invokeWithArguments` that are modelled: an array parameter takes only a Java array or null, a primitive parameter refuses null |
| Resolver.Adapt | src/main/java/org/valross/constantine/Constant.java:71-72 | as written, arguments reach the constructor unchanged; the corrected replay only turns an Array bound for an array parameter back into a Java array |
| Resolver.Invoke | src/main/java/org/valross/constantine/Constant.java:71-72 | a canonical constructor keeps its arguments in order, each fitting its parameter; Array's varargs constructor collects Constables and nulls; failures name the target class |
| Resolver.MakeBootstrap | src/main/java/org/valross/constantine/Constant.java:66-73 | element 0 must be the signature; the constructor found under it receives the remaining elements in their order |
| Resolver.Bootstrap | src/main/java/org/valross/constantine/Constant.java:66-73 | the imperative bootstrap (arraycopy of elements 1.. into a fresh array) computes `MakeBootstrap` |
| Resolver.ArrayBootstrap | src/main/java/org/valross/constantine/Constant.java:75-80 | replay succeeds iff the `(Constable[])` constructor is registered and every argument is a Constable or null, and yields an Array of exactly the arguments in order |
| Resolver.Resolve | src/main/java/org/valross/constantine/Constant.java:66-80 | a resolved `ARRAY` recipe is an Array with one element per argument, and a canonical recipe ends at the `NoBootstrap` placeholder |
| Resolver.ResolveAll | src/main/java/org/valross/constantine/Constant.java:66-80 | the static arguments resolve in order, one value per argument |
| Resolver.RoundTrip | src/test/java/org/valross/constantine/ConstantTest.java:28-52 | every rebuildable value (library constables, constants with a registered canonical constructor, Arrays, nested arbitrarily) has a recipe, and resolving it gives back a value of the same class and state (Java `equals` is modelled as this equality) |
| Resolver.SlotsRoundTrip | src/main/java/org/valross/constantine/Constant.java:102-106 | the element slots of a rebuildable list resolve back to the list |
| Resolver.ConstantRecipeArguments | src/main/java/org/valross/constantine/Constant.java:93-110 | once its serial elements replay, a plain or record constant's recipe is tagged `MAKE` with the default name, and its arguments resolve to the signature followed by `serial()` in order |
| Resolver.ConstantRoundTrip | src/main/java/org/valross/constantine/Constant.java:66-73 | once a constant's serial elements replay, the signature-prefixed recipe replays to a value of the same class and state |
| Resolver.SlotsRebuildAt | src/main/java/org/valross/constantine/Constant.java:102-106 | a list rebuilds iff each element rebuilds, or is null under the marker policy |
| Resolver.SlotsRebuildConstable | src/main/java/org/valross/constantine/Constant.java:75-80 | a rebuildable list holds only Constables, and nulls only under the marker policy |
| Resolver.CanonicalRecipesDoNotReplay | src/main/java/org/valross/constantine/Canonical.java:67-74 | a canonical constant's recipe is never replayed through a constructor: in the model it reaches the `NoBootstrap` placeholder that stands for the named-factory replay |
| Validation.HasCanonicalConstructor | src/main/java/org/valross/constantine/Constant.java:44-51 | `hasCanonicalConstructor`: the lookup finds a constructor of exactly these parameter types |
| Validation.HasCanonicalFactory | src/main/java/org/valross/constantine/Canonical.java:26-33 | `hasCanonicalFactory`: the lookup finds a static method of this name and parameters returning the class |
| Validation.Validate | src/main/java/org/valross/constantine/Constant.java:82-85 | a plain constant validates iff its class is constant and a constructor of exactly `canonicalParameters()` exists; a record constant must also be a record; a canonical one needs the named static factory returning its class |
| Validation.NonRecordFailsRecordValidation | src/main/java/org/valross/constantine/RecordConstant.java:16-19 | a record constant whose class is not a record never validates |
| Validation.ValidatedConstructorIsFound | src/main/java/org/valross/constantine/Constant.java:44-51 | after validation against a lookup, `bootstrap` with that same lookup always finds the constructor; only the arity or the arguments can still fail |
| Constantive.ConstantOf | src/main/java/org/valross/constantine/Constantive.java:17-18 | a constant's `constant()` is itself; a convertible object's is the constant it converts to |
| Constantive.DescribeDelegatesToConstant | src/main/java/org/valross/constantine/Constantive.java:20-25 | no recipe when `constant()` is null, otherwise exactly the recipe of `constant()` |
| Constantive.ConstantIsItsOwnConstant | src/main/java/org/valross/constantine/Constant.java:112-115 | every constant (Arrays included) is constantive, its own `constant()`, and delegating changes no recipe |
| Constantive.ConvertibleReplaysToItsConstant | src/main/java/org/valross/constantine/Constantive.java:20-25 | a convertible object whose `constant()` rebuilds has a recipe, and replaying it yields that constant, not the convertible object |
| CanonicalConstant.FactoryMethodName | src/main/java/org/valross/constantine/Canonical.java:88-90 | the factory name is `valueOf` unless overridden |
| CanonicalConstant.CanonicalRecipeIsNamedByFactory | src/main/java/org/valross/constantine/Canonical.java:67-90 | a canonical constant's recipe uses the canonical bootstrap, names its own class, and is named `valueOf` unless `factoryMethodName()` is overridden, in which case it carries the override |
| CanonicalConstant.CanonicalRecipe | src/main/java/org/valross/constantine/Canonical.java:67-74 | the recipe is tagged with the factory name and the class, and its arguments are exactly `getArguments` (null marker included) |
| CanonicalConstant.Intern | src/main/java/org/valross/constantine/Canonical.java:35-59 | interning returns an object equal to the argument, records it as the value's representative, and keeps earlier representatives |
| CanonicalConstant.InternContract | src/main/java/org/valross/constantine/Canonical.java:44-53 | for equal `this` and `that`: `this.equals(this.intern())`, `this.equals(that.intern())`, `this.intern() == that.intern()`, `this.intern() == this.intern()` and `this.intern() == this.intern().intern()`, with any interning in between |
| CanonicalConstant.RepresentativesAreStable | src/main/java/org/valross/constantine/Canonical.java:41 | once chosen, a value's representative stays whatever is interned later |
| CanonicalConstant.InternAll | src/main/java/org/valross/constantine/Canonical.java:39-42 | interning in turn keeps the registry consistent and creates no objects |
| ArrayContainer.Offends | src/main/java/org/valross/constantine/Array.java:66 | position k is where `Set.of` throws: a null element, or one equal to an earlier element |
| ArrayContainer.SetOf | src/main/java/org/valross/constantine/Array.java:64-67 | a built set holds exactly the array's elements |
| ArrayContainer.SetOfOutcome | src/main/java/org/valross/constantine/Array.java:64-67 | `Set.of` succeeds iff no element is null or repeated; otherwise the first such element decides NullPointerException versus IllegalArgumentException |
| ArrayContainer.NoOffenceIsDistinctNonNull | src/main/java/org/valross/constantine/Array.java:64-67 | no offending position means the elements are non-null and pairwise distinct, and conversely |
| ArrayContainer.ContainsEach | src/main/java/org/valross/constantine/Array.java:97-100 | `containsAll` is true iff every candidate is non-null and present; false names an absent candidate; a null candidate throws |
| ArrayContainer.HashOf | src/main/java/org/valross/constantine/Array.java:142-145 | `Arrays.hashCode` stays within 32-bit `int` range |
| ArrayContainer.HashOfIsUnboundedHashMod32 | src/main/java/org/valross/constantine/Array.java:142-145 | the 32-bit `Arrays.hashCode` equals, modulo 2^32, the unbounded sum of 31^n and each element's hash times 31 to the power of its distance from the end |
| ArrayContainer.ConstantArray.constructor | src/main/java/org/valross/constantine/Array.java:17-19 | the new Array owns a fresh copy of the caller's elements |
| ArrayContainer.ConstantArray.FromCollection | src/main/java/org/valross/constantine/Array.java:21-23 | the Array holds the collection's elements in its iteration order |
| ArrayContainer.ConstantArray.Serial | src/main/java/org/valross/constantine/Array.java:25-30 | `serial()` returns a fresh array with the same elements |
| ArrayContainer.ConstantArray.ToArray | src/main/java/org/valross/constantine/Array.java:74-77 | `toArray()` returns a fresh array with the same elements |
| ArrayContainer.ConstantArray.ToTypedArray | src/main/java/org/valross/constantine/Array.java:127-132 | `toArray(Class)` returns a fresh array of exactly `size()` with the same elements |
| ArrayContainer.ConstantArray.ToArrayInto | src/main/java/org/valross/constantine/Array.java:79-85 | a long enough caller array gets the elements in its prefix and is returned, positions from `size()` on untouched; otherwise it is left alone and a fresh copy is returned |
| ArrayContainer.ConstantArray.Size | src/main/java/org/valross/constantine/Array.java:54-57 | `size()` is the element count |
| ArrayContainer.ConstantArray.IsEmpty | src/main/java/org/valross/constantine/Array.java:59-62 | `isEmpty()` holds iff there are no elements |
| ArrayContainer.ConstantArray.Contains | src/main/java/org/valross/constantine/Array.java:64-67 | `contains(o)` answers iff the elements are distinct and non-null and `o` is not null, and then is true iff `o` is an element |
| ArrayContainer.ConstantArray.ContainsAll | src/main/java/org/valross/constantine/Array.java:97-100 | true iff the elements form a set and every candidate is a non-null element |
| ArrayContainer.ConstantArray.Mutate | src/main/java/org/valross/constantine/Array.java:87-120 | `add`, `remove`, `addAll`, `removeAll`, `retainAll` and `clear` always throw UnsupportedOperationException and change nothing |
| ArrayContainer.ConstantArray.Equals | src/main/java/org/valross/constantine/Array.java:134-140 | `equals`: the same object, or another Array with `Arrays.equals` elements |
| ArrayContainer.ConstantArray.EqualsIsElementwise | src/main/java/org/valross/constantine/Array.java:134-140 | `equals` holds iff both Arrays have the same elements at the same positions, elements compared as values (same class and state) |
| ArrayContainer.ConstantArray.ReorderingBreaksEquality | src/main/java/org/valross/constantine/Array.java:134-140 | exchanging two different elements gives an Array that is not equal |
| ArrayContainer.ConstantArray.HashCode | src/main/java/org/valross/constantine/Array.java:142-145 | `hashCode()` is `Arrays.hashCode` of the elements in order, a 32-bit `int` |
| ArrayContainer.ConstantArray.EqualArraysHashAlike | src/main/java/org/valross/constantine/Array.java:142-145 | equal Arrays have equal hash codes |
| ArrayContainer.ConstantArray.Clone | src/main/java/org/valross/constantine/Array.java:122-125 | the clone is a new Array with its own copy of the elements and equals the original |
| ArrayContainer.ConstantArray.DescribeConstable | src/main/java/org/valross/constantine/Array.java:42-52 | the imperative `describeConstable` computes the Array's recipe `Describe(Arr(elements))` |
| Scenarios.DayRoundTrip | src/test/java/org/valross/constantine/ConstantTest.java:28-39 | `new Day("Tuesday")` replays to an equal Day |
| Scenarios.DayRecipe | src/test/java/org/valross/constantine/ConstantTest.java:75-83 | the recipe of `Day("Tuesday")` has Day's type, the signature `void(String)` and the name itself |
| Scenarios.WeekdayRoundTrip | src/test/java/org/valross/constantine/ConstantTest.java:54-65 | `new Weekday("Tuesday")` replays to an equal Weekday |
| Scenarios.BlobRoundTrip | src/test/java/org/valross/constantine/ConstantTest.java:84 | `new Blob("hello", 5)` has a recipe, which replays to an equal Blob |
| Scenarios.AllRoundTrip | src/test/java/org/valross/constantine/ConstantTest.java:98-109 | the `All` record, one component of each primitive kind, replays to an equal record |
| Scenarios.LibraryRecordRebuilds | src/main/java/org/valross/constantine/RecordConstant.java:26-38 | a record constant whose components are all library constables, none bound for an array parameter, is rebuilt by its registered canonical constructor |
| Scenarios.ArrayOfDaysRoundTrip | src/test/java/org/valross/constantine/ConstantTest.java:41-52 | `Array(Day("Tuesday"), Day("Wednesday"))` replays to an equal Array |
| Scenarios.WrapperRoundTrip | src/test/java/org/valross/constantine/ConstantTest.java:87-96 | `Constant.fromConstable("Hello there")` replays to an equal wrapper |
| Scenarios.NullWrapperHasNoRecipeAsWritten | src/main/java/org/valross/constantine/Constant.java:102-106 | as written, `Constant.fromConstable(null)` cannot be described: the wrapped null is dereferenced |
| Scenarios.NullWrapperRoundTripsCorrected | src/main/java/org/valross/constantine/Utilities.java:20 | with the null marker, `Constant.fromConstable(null)` replays to an equal wrapper |
| Scenarios.ArraysDoNotReplayAsWritten | src/test/java/org/valross/constantine/ConstantTest.java:111-122 | as written, the `Arrays` record has a recipe, but replaying it fails with a cast failure |
| Scenarios.ArraysRoundTripCorrected | src/test/java/org/valross/constantine/ConstantTest.java:111-122 | with the corrected replay the `Arrays` record replays to an equal record |
| Scenarios.NullComponentHasNoRecipeAsWritten | src/main/java/org/valross/constantine/Constant.java:102-106 | as written, `Blob(null, 5)` cannot be described: the null name is dereferenced |
| Scenarios.NullComponentRoundTripsCorrected | src/main/java/org/valross/constantine/Utilities.java:20 | with the null marker, `Blob(null, 5)` replays to an equal Blob |
| Scenarios.TestTypesAreClassified | src/test/java/org/valross/constantine/ConstantTest.java:14-21 | Day, String and byte are constant; Object and the test class are not; the Java evaluation agrees for Day |

## Left out

- Reflection (`getFields`, `getModifiers`, `getSuperclass`, `getRecordComponents`, `privateLookupIn`, `unreflect`, `findConstructor`, `findStatic`) is replaced by the type table of `Validator`, the class declaration carried by every instance and the `Lookup` table. `IllegalAccessException` is modelled as "not found".
- The `java.lang.constant` encoding (`descriptorString`, `ClassDesc`, `MethodTypeDesc`, `DynamicConstantDesc.ofNamed`) and the JVM's own resolution of dynamic constants are replaced by the `Desc` datatype and `Resolver.Resolve`.
- `Constant.describe(Class)` and `isSuperConstant` are descriptor and unused helpers. They are not part of this model.
- Resolver.Invoke: of the conversions `invokeWithArguments` performs, only two are modelled: an array parameter takes only a Java array or null, and a primitive parameter refuses null. Unboxing to a primitive of a different kind is not modelled.
- The definition of `BOOTSTRAP_CANON` is not part of this model, so replaying a canonical recipe through its named static factory is not modelled.
- Resolver.Resolve: a recipe tagged with the canonical bootstrap resolves to the placeholder error `NoBootstrap` instead of calling the named static factory; the model makes no claim about what that replay yields.
- Resolver.CanonicalRecipesDoNotReplay: states the `NoBootstrap` placeholder, not the program's behaviour; the Canonical Javadoc (Canonical.java:17-18, 76-81) promises a rebuild through the factory, which is not modelled.
- `assert this.validate()` in `describeConstable` runs only with JVM assertions enabled. It is not modelled as a precondition.
- A hand-written `serial()` / `canonicalParameters()` (Day, Weekday, the `fromConstable` wrapper) is abstracted as "returns the values the object was built from" and the declared parameter list. A `serial()` that throws arbitrarily is covered only through the record path's deconstruction error.
- Validator.IsConstant: requires an acyclic, ranked type table. The Java method has no cycle guard. Its behaviour on cycles is stated separately (`Validator.SelfReferenceDiverges`), not modelled as a result.
- Resolver.RoundTrip: a convertible (`Constantive`) value replays to its `constant()`, not to itself (`Constantive.ConvertibleReplaysToItsConstant`). Canonical constants replay through a factory that is not modelled, so neither is in `Rebuilds`.
- Java `equals` is modelled as `Value` equality (same class and same state). Identity equality of classes that keep `Object.equals` is not modelled: such a non-record constant would replay to a new instance that is not `equals` the original, and two distinct elements with identity `equals` would not make `Set.of` throw, while `SetOf` reports them as repeated. Object identity is modelled only for interning (`CanonicalConstant.Registry`).
- The cause carried by `ConstantDeconstructionError` (the wrapped throwable) and the exception hierarchy of `ConstantError` are reduced to the `Error` variants.
- `Array.iterator()` is modelled as the element sequence `Elements()`.
- `Array.canonicalParameters()` is the constant `[Constable[]]`. It appears only as the key `Resolver.ArrayBootstrap` looks up.
- ArrayContainer.ConstantArray.ToTypedArray: the `ArrayStoreException` for a component type that cannot hold the elements is not modelled, because elements are untyped `Value`s.
- ArrayContainer.ConstantArray.ToArrayInto: requires that the caller's array is not the Array's private storage, which the Java record never hands out. `System.arraycopy` throws `ArrayStoreException` when an element does not fit the runtime component type of the caller's array (an `Integer` into a `String[]`), after it has written the elements before that one; `array<Value>` has no component type, so this exception and its partial prefix write are not modelled and the contract promises the full copy. `Collection.toArray(T[])` also asks for a null after the last element, which the code does not write; the model follows the code.
- ArrayContainer.HashOf: the elements' own `hashCode` is a parameter; its own contract gives only the 32-bit range, and its value is stated through `HashOfIsUnboundedHashMod32` and "equal Arrays hash alike".
- The `Serializable` and `Cloneable` markers and the `@Contract` / `@NotNull` annotations carry no behaviour and are not modelled. Floating-point components of the `All` record are opaque atoms.
- `intern()` is abstract in `Canonical`. `CanonicalConstant.Registry` is one sequential implementation against which the documented contract is proved.

## Findings

| source | as written | input that shows it | evidently intended | confidence | as-written member | corrected member |
|---|---|---|---|---|---|---|
| src/main/java/org/valross/constantine/Constant.java:102-106 | the element loop calls `describeConstable()` on every element not a `ConstantDesc`, including null, although `RecordConstant.serial` keeps null components as null | `new Blob(null, 5)`; also `Constant.fromConstable(null)` (Scenarios.NullWrapperHasNoRecipeAsWritten, Scenarios.NullWrapperRoundTripsCorrected) | store `ConstantDescs.NULL` for a null element, as `Utilities.getArguments` does (Utilities.java:20), so the record round-trips | not executed | Scenarios.NullComponentHasNoRecipeAsWritten | Scenarios.NullComponentRoundTripsCorrected |
| src/main/java/org/valross/constantine/Constant.java:66-73 | `RecordConstant.serial` wraps a `Constable[]` component in `Array`, and `bootstrap` passes that Array unchanged to the record's array-typed constructor parameter | `new Arrays(new String[] {"a", "b"}, true)` (the test at ConstantTest.java:111-122) | convert the Array back into an array of the parameter's type before invoking the constructor, so the record round-trips | not executed | Scenarios.ArraysDoNotReplayAsWritten | Scenarios.ArraysRoundTripCorrected |
