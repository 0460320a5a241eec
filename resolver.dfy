/**
 * Replaying recipes: the bootstrap methods `Constant.bootstrap` and
 * `Constant.bootstrapArray`, and the resolution of a descriptor (slot by
 * slot, then the bootstrap named by the recipe).
 *
 * Constructor lookup is the `Lookup` table keyed by (class, exact parameter
 * list); invoking a constructor checks the argument count and, of the
 * conversions `invokeWithArguments` performs, the two that matter to
 * constants: an array parameter takes only a Java array (or null) and a
 * primitive parameter does not take null.
 */
module Resolver {
  import opened Types
  import opened Decomposition
  import opened Recipe

  predicate IsPrimitiveName(p: TypeId) {
    p in {"boolean", "byte", "char", "short", "int", "long", "float", "double"}
  }

  /** Whether a constructor parameter of type p accepts the argument x. */
  predicate Fits(p: TypeId, x: Value) {
    (IsArrayType(p) ==> x.Null? || x.JavaArray?)
    && (IsPrimitiveName(p) ==> !x.Null?)
  }

  /**
   * The corrected replay turns an `Array` passed to an array-typed parameter
   * back into a Java array of that type, as `Array.toArray(Class)` would;
   * the code as written passes every argument on unchanged.
   */
  function Adapt(rev: Revision, p: TypeId, x: Value): (y: Value)
    ensures rev == AsWritten ==> y == x
    ensures y != x ==> x.Arr? && IsArrayType(p) && y == JavaArray(p, true, x.elems)
    ensures Fits(p, y) || !Fits(p, x) || y == x
  {
    if rev == Corrected && x.Arr? && IsArrayType(p) then JavaArray(p, true, x.elems) else x
  }

  /**
   * `constructor.invokeWithArguments(args)` for a constructor found under
   * `params`: a canonical constructor keeps its arguments in order, the
   * varargs constructor of Array collects them all.
   */
  function Invoke(rev: Revision, ctor: Constructor, cls: TypeId, params: seq<TypeId>, args: seq<Value>): (r: Result<Value>)
    ensures r.Ok? && ctor.CollectsVarargs? ==>
      r.value == Arr(args) && forall a :: a in args ==> a.Null? || IsConstable(a)
    ensures r.Ok? && ctor.Stores? ==>
      r.value.Inst? && r.value.cls == ctor.cls && |r.value.state| == |args| == |params|
      && (forall i :: 0 <= i < |args| ==>
            r.value.state[i] == Adapt(rev, params[i], args[i]) && Fits(params[i], r.value.state[i]))
    ensures r.Err? ==> r.error.Construction? && r.error.target == cls
  {
    match ctor
    case CollectsVarargs =>
      if forall a :: a in args ==> a.Null? || IsConstable(a) then Ok(Arr(args))
      else Err(Construction(cls, CastFailed))
    case Stores(c) =>
      if |args| != |params| then Err(Construction(cls, WrongArity))
      else
        var adapted := seq(|args|, i requires 0 <= i < |args| => Adapt(rev, params[i], args[i]));
        if forall i :: 0 <= i < |args| ==> Fits(params[i], adapted[i]) then Ok(Inst(c, adapted))
        else Err(Construction(cls, CastFailed))
  }

  /**
   * `Constant.bootstrap`: element 0 is the constructor signature, the
   * remaining elements are the constructor's arguments in their order.
   */
  function MakeBootstrap(rev: Revision, lk: Lookup, cls: TypeId, serial: seq<Value>): (r: Result<Value>)
    ensures |serial| == 0 ==> r == Err(Construction(cls, NoSignature))
    ensures |serial| > 0 && !serial[0].MethodType? ==> r == Err(Construction(cls, BadSignature))
    ensures r.Ok? ==>
      |serial| > 0 && serial[0].MethodType? && (cls, serial[0].params) in lk.ctors
      && r == Invoke(rev, lk.ctors[(cls, serial[0].params)], cls, serial[0].params, serial[1..])
    ensures r.Ok? && rev == AsWritten && lk.ctors[(cls, serial[0].params)].Stores? ==>
      r.value == Inst(lk.ctors[(cls, serial[0].params)].cls, serial[1..])
  {
    if |serial| == 0 then Err(Construction(cls, NoSignature))
    else if !serial[0].MethodType? then Err(Construction(cls, BadSignature))
    else if (cls, serial[0].params) !in lk.ctors then Err(Construction(cls, NoSuchConstructor))
    else Invoke(rev, lk.ctors[(cls, serial[0].params)], cls, serial[0].params, serial[1..])
  }

  /**
   * `Constant.bootstrapArray`: the `(Constable[])` constructor of the
   * recipe's class, given every argument; the result must be an Array.
   */
  function ArrayBootstrap(rev: Revision, lk: Lookup, cls: TypeId, serial: seq<Value>): (r: Result<Value>)
    ensures r.Ok? <==>
      (cls, [CONSTABLE_ARRAY]) in lk.ctors && lk.ctors[(cls, [CONSTABLE_ARRAY])] == CollectsVarargs
      && forall a :: a in serial ==> a.Null? || IsConstable(a)
    ensures r.Ok? ==> r.value == Arr(serial)
  {
    var key := (cls, [CONSTABLE_ARRAY]);
    if key !in lk.ctors then Err(Construction(cls, NoSuchConstructor))
    else
      var made :- Invoke(rev, lk.ctors[key], cls, [CONSTABLE_ARRAY], serial);
      if made.Arr? then Ok(made) else Err(Construction(cls, CastFailed))
  }

  /**
   * `Constant.bootstrap` as the Java code runs it: the signature is taken
   * from element 0 and the rest is copied into a fresh argument array by
   * `System.arraycopy` before the constructor is looked up and invoked.
   */
  method Bootstrap(rev: Revision, lk: Lookup, cls: TypeId, serial: seq<Value>) returns (r: Result<Value>)
    ensures r == MakeBootstrap(rev, lk, cls, serial)
  {
    if |serial| == 0 {
      return Err(Construction(cls, NoSignature));
    }
    if !serial[0].MethodType? {
      return Err(Construction(cls, BadSignature));
    }
    var signature := serial[0].params;
    var arguments := new Value[|serial| - 1];
    for i := 0 to |serial| - 1
      invariant arguments[..i] == serial[1..i + 1]
    {
      arguments[i] := serial[i + 1];
    }
    assert arguments[..] == serial[1..];
    if (cls, signature) !in lk.ctors {
      return Err(Construction(cls, NoSuchConstructor));
    }
    r := Invoke(rev, lk.ctors[(cls, signature)], cls, signature, arguments[..]);
  }

  /**
   * `desc.resolveConstantDesc(lookup)`. Replay of a canonical recipe through
   * its named static factory is not modelled: `NoBootstrap` stands in for it.
   */
  function Resolve(rev: Revision, lk: Lookup, d: Desc): (r: Result<Value>)
    ensures d.Dyn? && d.boot == Canon ==> r == Err(Construction(d.cls, NoBootstrap))
    ensures r.Ok? && d.Dyn? && d.boot == ArrayBoot ==> r.value.Arr? && |r.value.elems| == |d.args|
    decreases d
  {
    match d
    case NullDesc => Ok(Null)
    case Leaf(a) => Ok(Lib(a))
    case Library(a) => Ok(Lib(a))
    case Sig(ps) => Ok(MethodType(ps))
    case Dyn(boot, _, cls, args) =>
      if boot == Canon then Err(Construction(cls, NoBootstrap))
      else
        var vals :- ResolveAll(rev, lk, args);
        if boot == Make then MakeBootstrap(rev, lk, cls, vals) else ArrayBootstrap(rev, lk, cls, vals)
  }

  /** The static arguments of a recipe, resolved in order; an absent descriptor cannot be resolved. */
  function ResolveAll(rev: Revision, lk: Lookup, args: seq<Option<Desc>>): (r: Result<seq<Value>>)
    ensures r.Ok? ==> |r.value| == |args|
    decreases args
  {
    if args == [] then Ok([])
    else if args[0].None? then Err(NullPointer)
    else
      assert args[0] in args && args[0].value < args[0];
      var head :- Resolve(rev, lk, args[0].value);
      var tail :- ResolveAll(rev, lk, args[1..]);
      Ok([head] + tail)
  }

  /**
   * The values whose recipe replays to themselves: library constables,
   * method types, constants built by their registered canonical constructor
   * from state whose serial form rebuilds, and Arrays of rebuildable
   * non-null elements when Array's varargs constructor is registered.
   */
  predicate Rebuilds(rev: Revision, lk: Lookup, v: Value)
    decreases Size(v), 0
  {
    match v
    case Lib(_) => true
    case MethodType(_) => true
    case Inst(c, st) =>
      !c.iface.Canonical?
      && (c.name, Parameters(c)) in lk.ctors && lk.ctors[(c.name, Parameters(c))] == Stores(c)
      && Serial(c, st).Ok?
      && |Serial(c, st).value| == |st| == |Parameters(c)|
      && SlotsRebuild(rev, ElementPolicy(rev), lk, Serial(c, st).value)
      && forall i :: 0 <= i < |st| ==>
           Adapt(rev, Parameters(c)[i], Serial(c, st).value[i]) == st[i] && Fits(Parameters(c)[i], st[i])
    case Arr(es) =>
      (ARRAY, [CONSTABLE_ARRAY]) in lk.ctors && lk.ctors[(ARRAY, [CONSTABLE_ARRAY])] == CollectsVarargs
      && SlotsRebuild(rev, Dereference, lk, es)
    case _ => false
  }

  /** Every element rebuilds, or is null and the loop stores the null marker. */
  predicate SlotsRebuild(rev: Revision, policy: NullPolicy, lk: Lookup, es: seq<Value>)
    decreases SeqSize(es), 1
  {
    es == []
    || ((if es[0].Null? then policy == Marker else Rebuilds(rev, lk, es[0]))
        && SlotsRebuild(rev, policy, lk, es[1..]))
  }

  /** A rebuildable element list holds only Constables, and nulls where the marker is used. */
  lemma {:induction false} SlotsRebuildConstable(rev: Revision, policy: NullPolicy, lk: Lookup, es: seq<Value>)
    requires SlotsRebuild(rev, policy, lk, es)
    ensures forall a :: a in es ==> IsConstable(a) || (a.Null? && policy == Marker)
    decreases |es|
  {
    if es != [] {
      SlotsRebuildConstable(rev, policy, lk, es[1..]);
      assert forall a :: a in es ==> a == es[0] || a in es[1..];
    }
  }

  /** Element by element: every element rebuilds, or is null under the marker policy. */
  lemma {:induction false} SlotsRebuildAt(rev: Revision, policy: NullPolicy, lk: Lookup, es: seq<Value>)
    ensures SlotsRebuild(rev, policy, lk, es) <==>
      forall i :: 0 <= i < |es| ==> if es[i].Null? then policy == Marker else Rebuilds(rev, lk, es[i])
    decreases |es|
  {
    if es != [] {
      SlotsRebuildAt(rev, policy, lk, es[1..]);
      assert forall i :: 0 < i < |es| ==> es[1..][i - 1] == es[i];
    }
  }

  /**
   * The round trip: a rebuildable value has a recipe, and resolving that
   * recipe yields an equal value.
   */
  lemma {:induction false} RoundTrip(rev: Revision, lk: Lookup, v: Value)
    requires Rebuilds(rev, lk, v)
    ensures Describe(rev, v).Ok? && Describe(rev, v).value.Some?
    ensures Resolve(rev, lk, Describe(rev, v).value.value) == Ok(v)
    decreases Size(v), 0
  {
    match v
    case Lib(_) =>
    case MethodType(_) =>
    case Inst(c, st) =>
      SlotsRoundTrip(rev, ElementPolicy(rev), lk, Serial(c, st).value);
      ConstantRoundTrip(rev, lk, c, st);
    case Arr(es) =>
      SlotsRoundTrip(rev, Dereference, lk, es);
      SlotsRebuildConstable(rev, Dereference, lk, es);
  }

  /**
   * The recipe of a plain or record constant whose serial elements rebuild:
   * `MAKE`, the default name, and arguments that resolve to the signature
   * followed by the serial elements.
   */
  lemma ConstantRecipeArguments(rev: Revision, lk: Lookup, c: Class, st: seq<Value>, serial: seq<Value>)
    returns (args: seq<Option<Desc>>)
    requires !c.iface.Canonical? && Serial(c, st) == Ok(serial)
    requires Slots(rev, ElementPolicy(rev), serial).Ok?
    requires ResolveAll(rev, lk, Slots(rev, ElementPolicy(rev), serial).value) == Ok(serial)
    ensures Describe(rev, Inst(c, st)) == Ok(Some(Dyn(Make, DEFAULT_NAME, c.name, args)))
    ensures ResolveAll(rev, lk, args) == Ok([MethodType(Parameters(c))] + serial)
  {
    var slots := Slots(rev, ElementPolicy(rev), serial).value;
    args := [Some(Sig(Parameters(c)))] + slots;
    assert Arguments(rev, ElementPolicy(rev), c, st) == Ok(args);
    assert args[1..] == slots;
  }

  /**
   * One step of the round trip for a constant: once the recipes of its
   * serial elements replay to those elements, its own recipe replays to it.
   */
  lemma ConstantRoundTrip(rev: Revision, lk: Lookup, c: Class, st: seq<Value>)
    requires Rebuilds(rev, lk, Inst(c, st))
    requires Slots(rev, ElementPolicy(rev), Serial(c, st).value).Ok?
    requires ResolveAll(rev, lk, Slots(rev, ElementPolicy(rev), Serial(c, st).value).value) == Ok(Serial(c, st).value)
    ensures Describe(rev, Inst(c, st)).Ok? && Describe(rev, Inst(c, st)).value.Some?
    ensures Resolve(rev, lk, Describe(rev, Inst(c, st)).value.value) == Ok(Inst(c, st))
  {
    var serial := Serial(c, st).value;
    var args := ConstantRecipeArguments(rev, lk, c, st, serial);
    var vals := [MethodType(Parameters(c))] + serial;
    assert vals[1..] == serial;
    var made := Invoke(rev, Stores(c), c.name, Parameters(c), serial);
    assert made.Ok? && made.value.state == st;
  }

  lemma {:induction false} SlotsRoundTrip(rev: Revision, policy: NullPolicy, lk: Lookup, es: seq<Value>)
    requires SlotsRebuild(rev, policy, lk, es)
    ensures Slots(rev, policy, es).Ok?
    ensures ResolveAll(rev, lk, Slots(rev, policy, es).value) == Ok(es)
    decreases SeqSize(es), 1
  {
    if es != [] {
      if !es[0].Null? {
        RoundTrip(rev, lk, es[0]);
      }
      SlotsRoundTrip(rev, policy, lk, es[1..]);
      assert Slot(rev, policy, es[0]).Ok?;
      var slots := Slots(rev, policy, es).value;
      assert slots[1..] == Slots(rev, policy, es[1..]).value;
      assert [es[0]] + es[1..] == es;
    }
  }

  /**
   * A canonical recipe reaches the `NoBootstrap` placeholder of `Resolve`, never
   * a constructor: the recipe keeps out of the `MAKE` and `ARRAY` replays.
   */
  lemma CanonicalRecipesDoNotReplay(rev: Revision, lk: Lookup, v: Value)
    requires v.Inst? && v.cls.iface.Canonical? && Describe(rev, v).Ok?
    ensures Resolve(rev, lk, Describe(rev, v).value.value) == Err(Construction(v.cls.name, NoBootstrap))
  {
  }
}
