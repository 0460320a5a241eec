/**
 * The records and values of the repository's test suite as concrete
 * scenarios: `Day`, `Weekday`, `Blob`, `All`, `Arrays`, an `Array` of days
 * and the `fromConstable` wrapper (of a Constable and of null), with a lookup table holding their
 * canonical constructors and Array's varargs constructor.
 */
module Scenarios {
  import opened Types
  import opened Decomposition
  import opened Recipe
  import opened Resolver
  import Validator

  const STRING_ARRAY: TypeId := "[Ljava.lang.String;"
  const TEST: TypeId := "org.valross.constantine.ConstantTest"

  /** `record Day(String name) implements Constant`, with hand-written serial and parameters. */
  const DAY: Class := Class("org.valross.constantine.ConstantTest$Day", true, PlainConstant, Stored, [STRING])

  /** `record Weekday(String name) implements RecordConstant`, overriding both. */
  const WEEKDAY: Class := Class("org.valross.constantine.ConstantTest$Weekday", true, RecordConstant, Stored, [STRING])

  /** `record Blob(String name, int number) implements RecordConstant`. */
  const BLOB: Class := Class("org.valross.constantine.ConstantTest$Blob", true, RecordConstant, RecordComponents, [STRING, "int"])

  /** `record All(String, int, boolean, char, float, double, long, short, byte)`. */
  const ALL: Class := Class("org.valross.constantine.ConstantTest$All", true, RecordConstant, RecordComponents,
                            [STRING, "int", "boolean", "char", "float", "double", "long", "short", "byte"])

  /** `record Arrays(String[] strings, boolean b) implements RecordConstant`. */
  const ARRAYS: Class := Class("org.valross.constantine.ConstantTest$Arrays", true, RecordConstant, RecordComponents, [STRING_ARRAY, "boolean"])

  /** What a lookup in the test class can find. */
  const LOOKUP: Lookup := Lookup(
    map[(DAY.name, [STRING]) := Stores(DAY),
        (WEEKDAY.name, [STRING]) := Stores(WEEKDAY),
        (BLOB.name, BLOB.declared) := Stores(BLOB),
        (ALL.name, ALL.declared) := Stores(ALL),
        (ARRAYS.name, ARRAYS.declared) := Stores(ARRAYS),
        (WRAPPER.name, [CONSTABLE]) := Stores(WRAPPER),
        (ARRAY, [CONSTABLE_ARRAY]) := CollectsVarargs],
    {})

  function Str(s: string): Value {
    Lib(Atom(STRING, s))
  }

  function Boxed(cls: TypeId, text: string): Value {
    Lib(Atom(cls, text))
  }

  /** A Day of any name is rebuilt by Day's canonical constructor. */
  lemma DayRebuilds(rev: Revision, name: string)
    ensures Rebuilds(rev, LOOKUP, Inst(DAY, [Str(name)]))
  {
    SlotsRebuildAt(rev, ElementPolicy(rev), LOOKUP, [Str(name)]);
  }

  /** `new Day("Tuesday")` replays to an equal Day. */
  lemma DayRoundTrip(rev: Revision)
    ensures var r := Describe(rev, Inst(DAY, [Str("Tuesday")]));
      r.Ok? && r.value.Some? && Resolve(rev, LOOKUP, r.value.value) == Ok(Inst(DAY, [Str("Tuesday")]))
  {
    DayRebuilds(rev, "Tuesday");
    RoundTrip(rev, LOOKUP, Inst(DAY, [Str("Tuesday")]));
  }

  /** The recipe of `new Day("Tuesday")`: Day's class, `void(String)`, then the name itself. */
  lemma DayRecipe(rev: Revision)
    ensures Describe(rev, Inst(DAY, [Str("Tuesday")]))
         == Ok(Some(Dyn(Make, DEFAULT_NAME, DAY.name, [Some(Sig([STRING])), Some(Leaf(Atom(STRING, "Tuesday")))])))
  {
    var st := [Str("Tuesday")];
    DayRoundTrip(rev);
    ArgumentsLayout(rev, ElementPolicy(rev), DAY, st);
    assert IsDescValue(st[0]);
    var args := Arguments(rev, ElementPolicy(rev), DAY, st).value;
    assert args == [Some(Sig([STRING])), Some(Leaf(Atom(STRING, "Tuesday")))];
  }

  /** `new Weekday("Tuesday")` replays to an equal Weekday. */
  lemma WeekdayRoundTrip(rev: Revision)
    ensures var r := Describe(rev, Inst(WEEKDAY, [Str("Tuesday")]));
      r.Ok? && r.value.Some? && Resolve(rev, LOOKUP, r.value.value) == Ok(Inst(WEEKDAY, [Str("Tuesday")]))
  {
    SlotsRebuildAt(rev, ElementPolicy(rev), LOOKUP, [Str("Tuesday")]);
    RoundTrip(rev, LOOKUP, Inst(WEEKDAY, [Str("Tuesday")]));
  }

  /** `new Blob("hello", 5)` has a recipe, and it replays to an equal Blob. */
  lemma BlobRoundTrip(rev: Revision)
    ensures var v := Inst(BLOB, [Str("hello"), Boxed(INTEGER, "5")]);
      Describe(rev, v).Ok? && Describe(rev, v).value.Some?
      && Resolve(rev, LOOKUP, Describe(rev, v).value.value) == Ok(v)
  {
    var v := Inst(BLOB, [Str("hello"), Boxed(INTEGER, "5")]);
    assert BLOB.declared[0][0] != '[' && BLOB.declared[1][0] != '[';
    LibraryRecordRebuilds(rev, LOOKUP, BLOB, v.state);
    RoundTrip(rev, LOOKUP, v);
  }

  /** The `All` record, one component of every kind. */
  function AllValue(): (v: Value)
    ensures v.Inst? && v.cls == ALL && |v.state| == |ALL.declared|
  {
    Inst(ALL, [Str("A"), Boxed(INTEGER, "1"), Boxed(BOOLEAN, "true"), Boxed(CHARACTER, "c"),
               Boxed(FLOAT, "4.0"), Boxed(DOUBLE, "5.0"), Boxed(LONG, "6"), Boxed(SHORT, "7"),
               Boxed(BYTE, "8")])
  }

  /** `new All("A", 1, true, 'c', 4.0F, 5.0, 6L, (short) 7, (byte) 8)` replays to an equal record. */
  lemma AllRoundTrip(rev: Revision)
    ensures var v := AllValue();
      Describe(rev, v).Ok? && Describe(rev, v).value.Some?
      && Resolve(rev, LOOKUP, Describe(rev, v).value.value) == Ok(v)
  {
    AllRebuilds(rev);
    RoundTrip(rev, LOOKUP, AllValue());
  }

  /** Every component of `All` is a boxed library value that its parameter takes unchanged. */
  lemma AllRebuilds(rev: Revision)
    ensures Rebuilds(rev, LOOKUP, AllValue())
  {
    var v := AllValue();
    AllParametersAreNotArrays();
    assert LOOKUP.ctors[(ALL.name, ALL.declared)] == Stores(ALL);
    LibraryRecordRebuilds(rev, LOOKUP, ALL, v.state);
  }

  lemma AllParametersAreNotArrays()
    ensures forall i :: 0 <= i < |ALL.declared| ==> !IsArrayType(ALL.declared[i])
  {
    forall i | 0 <= i < |ALL.declared|
      ensures !IsArrayType(ALL.declared[i])
    {
      assert ALL.declared[i][0] != '[';
    }
  }

  /**
   * A record constant whose components are all library values, none bound for
   * an array parameter, rebuilds through its registered canonical constructor.
   */
  lemma LibraryRecordRebuilds(rev: Revision, lk: Lookup, c: Class, st: seq<Value>)
    requires !c.iface.Canonical? && c.decomposition == RecordComponents
    requires (c.name, c.declared) in lk.ctors && lk.ctors[(c.name, c.declared)] == Stores(c)
    requires |st| == |c.declared|
    requires forall i :: 0 <= i < |st| ==> st[i].Lib? && !IsArrayType(c.declared[i])
    ensures Rebuilds(rev, lk, Inst(c, st))
  {
    ConstableComponentsPassThrough(c.name, st);
    SlotsRebuildAt(rev, ElementPolicy(rev), lk, st);
  }

  /** `new Array(new Day("Tuesday"), new Day("Wednesday"))` replays to an equal Array. */
  lemma ArrayOfDaysRoundTrip(rev: Revision)
    ensures var v := Arr([Inst(DAY, [Str("Tuesday")]), Inst(DAY, [Str("Wednesday")])]);
      Describe(rev, v).Ok? && Describe(rev, v).value.Some?
      && Resolve(rev, LOOKUP, Describe(rev, v).value.value) == Ok(v)
  {
    var v := Arr([Inst(DAY, [Str("Tuesday")]), Inst(DAY, [Str("Wednesday")])]);
    DayRebuilds(rev, "Tuesday");
    DayRebuilds(rev, "Wednesday");
    SlotsRebuildAt(rev, Dereference, LOOKUP, v.elems);
    RoundTrip(rev, LOOKUP, v);
  }

  /** `Constant.fromConstable("Hello there")` replays to an equal wrapper. */
  lemma WrapperRoundTrip(rev: Revision)
    ensures var v := FromConstable(Str("Hello there"));
      Describe(rev, v).Ok? && Describe(rev, v).value.Some?
      && Resolve(rev, LOOKUP, Describe(rev, v).value.value) == Ok(v)
  {
    RoundTrip(rev, LOOKUP, FromConstable(Str("Hello there")));
  }

  /** `Constant.fromConstable(null)`: as written, describing the wrapper dereferences its null. */
  lemma NullWrapperHasNoRecipeAsWritten()
    ensures Describe(AsWritten, FromConstable(Null)) == Err(NullPointer)
  {
    var v := FromConstable(Null);
    ArgumentsFailure(AsWritten, Dereference, WRAPPER, v.state);
    SlotsAt(AsWritten, Dereference, v.state);
  }

  /** With the null marker, `Constant.fromConstable(null)` replays to an equal wrapper. */
  lemma NullWrapperRoundTripsCorrected()
    ensures var v := FromConstable(Null);
      Describe(Corrected, v).Ok? && Describe(Corrected, v).value.Some?
      && Resolve(Corrected, LOOKUP, Describe(Corrected, v).value.value) == Ok(v)
  {
    var v := FromConstable(Null);
    SlotsRebuildAt(Corrected, Marker, LOOKUP, v.state);
    RoundTrip(Corrected, LOOKUP, v);
  }

  /** `new Arrays(new String[] {"a", "b"}, true)`. */
  function ArraysValue(): (v: Value)
    ensures v.Inst? && v.cls == ARRAYS && |v.state| == 2 && v.state[0].JavaArray?
  {
    Inst(ARRAYS, [JavaArray(STRING_ARRAY, true, [Str("a"), Str("b")]), Boxed(BOOLEAN, "true")])
  }

  /**
   * As written, the `Arrays` record has a recipe (its `String[]` component
   * becomes an Array) but replaying it hands that Array to the `String[]`
   * parameter, which fails.
   */
  lemma ArraysDoNotReplayAsWritten()
    ensures var v := ArraysValue();
      Describe(AsWritten, v).Ok? && Describe(AsWritten, v).value.Some?
      && Resolve(AsWritten, LOOKUP, Describe(AsWritten, v).value.value) == Err(Construction(ARRAYS.name, CastFailed))
  {
    var v := ArraysValue();
    var args, vals := ArraysRecipe(v);
    assert vals[1..] == [Arr([Str("a"), Str("b")]), Boxed(BOOLEAN, "true")];
    ArrayReachesStringArrayParameter();
  }

  /** The `Arrays` constructor, invoked as written, is handed an Array where it takes a `String[]`. */
  lemma ArrayReachesStringArrayParameter()
    ensures Invoke(AsWritten, Stores(ARRAYS), ARRAYS.name, ARRAYS.declared,
                   [Arr([Str("a"), Str("b")]), Boxed(BOOLEAN, "true")])
         == Err(Construction(ARRAYS.name, CastFailed))
  {
    var xs := [Arr([Str("a"), Str("b")]), Boxed(BOOLEAN, "true")];
    var r := Invoke(AsWritten, Stores(ARRAYS), ARRAYS.name, ARRAYS.declared, xs);
    assert !Fits(ARRAYS.declared[0], xs[0]);
    assert Adapt(AsWritten, ARRAYS.declared[0], xs[0]) == xs[0];
    assert r.Err?;
  }

  /**
   * As written, the recipe of the `Arrays` record carries its signature and
   * the recipes of its two serial elements, and those arguments resolve to
   * the signature followed by the serial form, an Array in first place.
   */
  lemma ArraysRecipe(v: Value) returns (args: seq<Option<Desc>>, vals: seq<Value>)
    requires v == ArraysValue()
    ensures Describe(AsWritten, v) == Ok(Some(Dyn(Make, DEFAULT_NAME, ARRAYS.name, args)))
    ensures ResolveAll(AsWritten, LOOKUP, args) == Ok(vals)
    ensures vals == [MethodType(ARRAYS.declared), Arr([Str("a"), Str("b")]), Boxed(BOOLEAN, "true")]
  {
    var serial := ArraysSerial(v);
    SlotsRoundTrip(AsWritten, Dereference, LOOKUP, serial);
    args := ConstantRecipeArguments(AsWritten, LOOKUP, ARRAYS, v.state, serial);
    vals := [MethodType(ARRAYS.declared)] + serial;
  }

  /**
   * `serial()` of the `Arrays` record: the `String[]` component becomes an
   * Array of the same strings, and both components rebuild on their own.
   */
  lemma ArraysSerial(v: Value) returns (serial: seq<Value>)
    requires v == ArraysValue()
    ensures Serial(ARRAYS, v.state) == Ok(serial)
    ensures serial == [Arr([Str("a"), Str("b")]), Boxed(BOOLEAN, "true")]
    ensures forall rev :: SlotsRebuild(rev, Dereference, LOOKUP, serial) && SlotsRebuild(rev, Marker, LOOKUP, serial)
  {
    serial := [Arr([Str("a"), Str("b")]), Boxed(BOOLEAN, "true")];
    ClassifyAllAt(ARRAYS.name, v.state);
    assert Classify(ARRAYS.name, v.state[0]) == Ok(serial[0]);
    assert Classify(ARRAYS.name, v.state[1]) == Ok(serial[1]);
    var r := ClassifyAll(ARRAYS.name, v.state);
    assert r.Ok? && |r.value| == 2 && r.value[0] == serial[0] && r.value[1] == serial[1];
    assert r.value == serial;
    forall rev: Revision, policy: NullPolicy
      ensures SlotsRebuild(rev, policy, LOOKUP, serial)
    {
      SlotsRebuildAt(rev, Dereference, LOOKUP, serial[0].elems);
      SlotsRebuildAt(rev, policy, LOOKUP, serial);
    }
  }

  /** With the corrected replay the `Arrays` record round-trips. */
  lemma ArraysRoundTripCorrected()
    ensures var v := ArraysValue();
      Describe(Corrected, v).Ok? && Describe(Corrected, v).value.Some?
      && Resolve(Corrected, LOOKUP, Describe(Corrected, v).value.value) == Ok(v)
  {
    var v := ArraysValue();
    var serial := ArraysSerial(v);
    RoundTrip(Corrected, LOOKUP, v);
  }

  /** `new Blob(null, 5)`: as written, describing it dereferences the null name. */
  lemma NullComponentHasNoRecipeAsWritten()
    ensures Describe(AsWritten, Inst(BLOB, [Null, Boxed(INTEGER, "5")])) == Err(NullPointer)
  {
    var v := Inst(BLOB, [Null, Boxed(INTEGER, "5")]);
    ConstableComponentsPassThrough(BLOB.name, v.state);
    ArgumentsFailure(AsWritten, Dereference, BLOB, v.state);
    SlotsAt(AsWritten, Dereference, v.state);
  }

  /** With the null marker, `new Blob(null, 5)` has a recipe that replays to an equal Blob. */
  lemma NullComponentRoundTripsCorrected()
    ensures var v := Inst(BLOB, [Null, Boxed(INTEGER, "5")]);
      Describe(Corrected, v).Ok? && Describe(Corrected, v).value.Some?
      && Resolve(Corrected, LOOKUP, Describe(Corrected, v).value.value) == Ok(v)
  {
    var v := Inst(BLOB, [Null, Boxed(INTEGER, "5")]);
    ConstableComponentsPassThrough(BLOB.name, v.state);
    SlotsRebuildAt(Corrected, Marker, LOOKUP, v.state);
    RoundTrip(Corrected, LOOKUP, v);
  }

  /** The types the test suite asks `isConstant` about. */
  const DAY_INFO: Validator.TypeInfo :=
    Validator.TypeInfo(false, false, true, true, "org.valross.constantine", [], Some(RECORD))

  const HIERARCHY: Validator.Hierarchy := Validator.Hierarchy(
    map[DAY.name := DAY_INFO,
        RECORD := Validator.TypeInfo(false, false, false, false, "java.lang", [], Some(OBJECT)),
        STRING := Validator.TypeInfo(false, false, true, false, "java.lang", [], Some(OBJECT)),
        "byte" := Validator.TypeInfo(true, false, false, false, "java.lang", [], None),
        OBJECT := Validator.TypeInfo(false, false, false, false, "java.lang", [], None),
        TEST := Validator.TypeInfo(false, false, false, false, "org.valross.constantine", [], Some(OBJECT))],
    map[DAY.name := 1, RECORD := 0, STRING := 0, "byte" := 0, OBJECT := 0, TEST := 0])

  /** The table is closed, has no array classes and ranks Day above Record. */
  lemma HierarchyIsValid()
    ensures Validator.Valid(HIERARCHY)
  {
    HierarchyIsClosed();
    HierarchyHasNoArrays();
    HierarchyIsRanked();
  }

  lemma HierarchyIsClosed()
    ensures Validator.Closed(HIERARCHY.types)
  {
    var types := HIERARCHY.types;
    forall t | t in types
      ensures types[t].fields == [] && (types[t].superclass.Some? ==> types[t].superclass.value in types)
    {
    }
  }

  lemma HierarchyHasNoArrays()
    ensures Validator.ArraysAreArrays(HIERARCHY.types)
  {
    forall t | t in HIERARCHY.types
      ensures !IsArrayType(t)
    {
    }
  }

  lemma HierarchyIsRanked()
    ensures Validator.Ranked(HIERARCHY)
  {
    var types := HIERARCHY.types;
    forall t | t in types
      ensures t in HIERARCHY.rank && types[t].fields == []
      ensures Validator.Recurses(t, types[t]) ==> t == DAY.name
    {
    }
  }

  /**
   * `Day`, `String` and `byte` are constant; `Object` and the test class are
   * not; and the Java method, given enough depth, answers the same for Day.
   */
  lemma TestTypesAreClassified()
    ensures Validator.Valid(HIERARCHY)
    ensures Validator.IsConstant(HIERARCHY, DAY.name)
    ensures Validator.IsConstant(HIERARCHY, STRING) && Validator.IsConstant(HIERARCHY, "byte")
    ensures !Validator.IsConstant(HIERARCHY, OBJECT) && !Validator.IsConstant(HIERARCHY, TEST)
    ensures Validator.Check(HIERARCHY.types, DAY.name, 2) == Some(true)
  {
    HierarchyIsValid();
    assert Validator.IsConstant(HIERARCHY, RECORD);
    Validator.CheckAgrees(HIERARCHY, DAY.name, 2);
  }
}
