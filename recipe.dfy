/**
 * Turning a value into its recipe: `describeConstable` for constants,
 * arrays, canonical constants and constantives, and the argument assembly
 * of `Utilities.getArguments`.
 *
 * A constant's recipe carries the constructor signature in slot 0 and one
 * descriptor per `serial()` element after it. An element that is already a
 * `ConstantDesc` is embedded as it is; any other element is described in
 * turn, which is where the recursion into nested constants happens.
 */
module Recipe {
  import opened Types
  import opened Decomposition

  /**
   * `AsWritten` follows the repository's code; `Corrected` repairs the two
   * defects listed under Findings in README.md (null elements in
   * `Constant.describeConstable`, and `Constable[]` record components on
   * replay).
   */
  datatype Revision = AsWritten | Corrected

  /** What an element loop does with a null element. */
  datatype NullPolicy =
    | Dereference   // calls describeConstable() on it: NullPointerException
    | Marker        // stores ConstantDescs.NULL

  /** The null policy of `Constant.describeConstable` in each revision. */
  function ElementPolicy(rev: Revision): (p: NullPolicy)
    ensures p == Marker <==> rev == Corrected
  {
    match rev
    case AsWritten => Dereference
    case Corrected => Marker
  }

  /** `v.describeConstable()`, with `Optional.empty()` as `None`. */
  function Describe(rev: Revision, v: Value): (r: Result<Option<Desc>>)
    ensures v.Null? || v.JavaArray? || v.Plain? ==> r.Err?
    ensures r.Ok? && v.Inst? ==>
      Serial(v.cls, v.state).Ok?
      && r.value.Some? && r.value.value.Dyn? && r.value.value.cls == v.cls.name
      && |r.value.value.args| == |Serial(v.cls, v.state).value| + 1
      && r.value.value.args[0] == Some(Sig(Parameters(v.cls)))
    ensures r.Ok? && v.Inst? && !v.cls.iface.Canonical? ==>
      r.value.value.boot == Make && r.value.value.name == DEFAULT_NAME
    ensures r.Ok? && v.Inst? && v.cls.iface.Canonical? ==>
      r.value.value.boot == Canon && r.value.value.name == v.cls.iface.factory
    ensures r.Ok? && v.Arr? ==>
      r.value.Some? && r.value.value.Dyn? && r.value.value.boot == ArrayBoot
      && r.value.value.cls == ARRAY && |r.value.value.args| == |v.elems|
    decreases Size(v), 0
  {
    match v
    case Null => Err(NullPointer)
    case Lib(a) => Ok(Some(if IsDescAtom(a) then Leaf(a) else Library(a)))
    case MethodType(ps) => Ok(Some(Sig(ps)))
    case Inst(c, st) =>
      (match c.iface
       case Canonical(factory) =>
         var args :- Arguments(rev, Marker, c, st);
         Ok(Some(Dyn(Canon, factory, c.name, args)))
       case _ =>
         var args :- Arguments(rev, ElementPolicy(rev), c, st);
         Ok(Some(Dyn(Make, DEFAULT_NAME, c.name, args))))
    case Arr(es) =>
      var args :- Slots(rev, Dereference, es);
      Ok(Some(Dyn(ArrayBoot, DEFAULT_NAME, ARRAY, args)))
    case Convertible(_, image) =>
      if image.Null? then Ok(None) else Describe(rev, image)
    case JavaArray(t, _, _) => Err(NotConstable(t))
    case Plain(k) => Err(NotConstable(k))
  }

  /**
   * The argument list of a constant's recipe: the signature of its canonical
   * constructor, then one slot per `serial()` element. A failing `serial()`
   * leaves no recipe.
   */
  function Arguments(rev: Revision, policy: NullPolicy, c: Class, st: seq<Value>): (r: Result<seq<Option<Desc>>>)
    ensures Serial(c, st).Err? ==> r == Err(Serial(c, st).error)
    ensures r.Ok? ==>
      Serial(c, st).Ok?
      && |r.value| == |Serial(c, st).value| + 1
      && r.value[0] == Some(Sig(Parameters(c)))
    decreases SeqSize(st), 3
  {
    var serial :- Serial(c, st);
    var slots :- Slots(rev, policy, serial);
    Ok([Some(Sig(Parameters(c)))] + slots)
  }

  /** The element loop: one slot per element, in order, stopping at the first failure. */
  function Slots(rev: Revision, policy: NullPolicy, es: seq<Value>): (r: Result<seq<Option<Desc>>>)
    ensures r.Ok? ==> |r.value| == |es|
    decreases SeqSize(es), 2
  {
    if es == [] then Ok([])
    else
      var head :- Slot(rev, policy, es[0]);
      var tail :- Slots(rev, policy, es[1..]);
      Ok([head] + tail)
  }

  /** One element's slot: the null marker or a dereference, itself if it is a descriptor, else its description. */
  function Slot(rev: Revision, policy: NullPolicy, e: Value): (r: Result<Option<Desc>>)
    decreases Size(e), 1
  {
    if e.Null? then
      (if policy == Marker then Ok(Some(NullDesc)) else Err(NullPointer))
    else if IsDescValue(e) then Ok(Some(Leaf(e.atom)))
    else Describe(rev, e)
  }

  /**
   * The element loop, position by position: it succeeds exactly when every
   * element's slot does, slot i then comes from element i, and otherwise the
   * error is the first failing element's.
   */
  lemma {:induction false} SlotsAt(rev: Revision, policy: NullPolicy, es: seq<Value>)
    ensures Slots(rev, policy, es).Ok? <==> forall i :: 0 <= i < |es| ==> Slot(rev, policy, es[i]).Ok?
    ensures Slots(rev, policy, es).Ok? ==>
      forall i :: 0 <= i < |es| ==> Slots(rev, policy, es).value[i] == Slot(rev, policy, es[i]).value
    ensures Slots(rev, policy, es).Err? ==>
      exists k :: 0 <= k < |es| && Slot(rev, policy, es[k]).Err?
        && (forall i :: 0 <= i < k ==> Slot(rev, policy, es[i]).Ok?)
        && Slots(rev, policy, es).error == Slot(rev, policy, es[k]).error
  {
    if es != [] {
      SlotsAt(rev, policy, es[1..]);
      assert forall i :: 0 < i < |es| ==> es[1..][i - 1] == es[i];
      if Slot(rev, policy, es[0]).Ok? && Slots(rev, policy, es[1..]).Err? {
        var k :| 0 <= k < |es[1..]| && Slot(rev, policy, es[1..][k]).Err?
          && (forall i :: 0 <= i < k ==> Slot(rev, policy, es[1..][i]).Ok?)
          && Slots(rev, policy, es[1..]).error == Slot(rev, policy, es[1..][k]).error;
        assert forall i :: 0 <= i < k + 1 ==> Slot(rev, policy, es[i]).Ok? by {
          forall i | 0 <= i < k + 1
            ensures Slot(rev, policy, es[i]).Ok?
          {
            if i > 0 {
              assert es[i] == es[1..][i - 1];
            }
          }
        }
      }
    }
  }

  /**
   * The layout of a constant's argument list: slot 0 is `void(canonicalParameters())`,
   * and slot i+1 is element i of `serial()` made into a descriptor under the
   * given null policy: the marker for null, the element itself when it is
   * already a descriptor, its own description otherwise.
   */
  lemma ArgumentsLayout(rev: Revision, policy: NullPolicy, c: Class, st: seq<Value>)
    requires Arguments(rev, policy, c, st).Ok?
    ensures var serial := Serial(c, st).value;
      var args := Arguments(rev, policy, c, st).value;
      args[0] == Some(Sig(Parameters(c)))
      && forall i :: 0 <= i < |serial| ==>
           Slot(rev, policy, serial[i]).Ok? && args[i + 1] == Slot(rev, policy, serial[i]).value
           && (serial[i].Null? ==> policy == Marker && args[i + 1] == Some(NullDesc))
           && (IsDescValue(serial[i]) ==> args[i + 1] == Some(Leaf(serial[i].atom)))
  {
    var serial := Serial(c, st).value;
    SlotsAt(rev, policy, serial);
  }

  /** The argument list fails exactly when `serial()` fails or some element cannot be described. */
  lemma ArgumentsFailure(rev: Revision, policy: NullPolicy, c: Class, st: seq<Value>)
    requires Serial(c, st).Ok?
    ensures Arguments(rev, policy, c, st).Err? <==>
      exists i :: 0 <= i < |Serial(c, st).value| && Slot(rev, policy, Serial(c, st).value[i]).Err?
  {
    SlotsAt(rev, policy, Serial(c, st).value);
  }

  /**
   * The shared element loop of `Constant.describeConstable` and
   * `Utilities.getArguments`: writes the slot of element i at position
   * offset + i and touches no other position; on the first element that
   * cannot be described it stops and reports that element's error.
   */
  method DescribeInto(rev: Revision, policy: NullPolicy, constables: seq<Value>,
                      arguments: array<Option<Desc>>, offset: nat) returns (failure: Option<Error>)
    requires offset + |constables| <= arguments.Length
    modifies arguments
    ensures failure.None? <==> Slots(rev, policy, constables).Ok?
    ensures failure.Some? ==> Slots(rev, policy, constables) == Err(failure.value)
    ensures failure.None? ==> arguments[offset..offset + |constables|] == Slots(rev, policy, constables).value
    ensures forall k :: 0 <= k < arguments.Length && !(offset <= k < offset + |constables|) ==>
      arguments[k] == old(arguments[k])
  {
    SlotsAt(rev, policy, constables);
    for i := 0 to |constables|
      invariant forall k :: 0 <= k < i ==>
        Slot(rev, policy, constables[k]).Ok? && arguments[offset + k] == Slot(rev, policy, constables[k]).value
      invariant forall k :: 0 <= k < arguments.Length && !(offset <= k < offset + i) ==>
        arguments[k] == old(arguments[k])
    {
      var constable := constables[i];
      var slot: Result<Option<Desc>>;
      if constable.Null? && policy == Marker {
        slot := Ok(Some(NullDesc));
      } else if IsDescValue(constable) {
        slot := Ok(Some(Leaf(constable.atom)));
      } else {
        slot := Slot(rev, policy, constable);
      }
      if slot.Err? {
        return Some(slot.error);
      }
      arguments[offset + i] := slot.value;
    }
    assert arguments[offset..offset + |constables|] == Slots(rev, policy, constables).value;
    return None;
  }

  /**
   * `Utilities.getArguments`: a fresh array of `serial().length + 1` slots,
   * elements first (null as the NULL marker), then the signature in slot 0.
   */
  method GetArguments(rev: Revision, c: Class, st: seq<Value>) returns (r: Result<seq<Option<Desc>>>)
    ensures r == Arguments(rev, Marker, c, st)
  {
    var serial := Serial(c, st);
    if serial.Err? {
      return Err(serial.error);
    }
    var constables := serial.value;
    var arguments := new Option<Desc>[|constables| + 1](_ => None);
    var failure := DescribeInto(rev, Marker, constables, arguments, 1);
    if failure.Some? {
      return Err(failure.value);
    }
    arguments[0] := Some(Sig(Parameters(c)));
    assert arguments[..] == [Some(Sig(Parameters(c)))] + Slots(rev, Marker, constables).value by {
      assert arguments[1..] == Slots(rev, Marker, constables).value;
    }
    return Ok(arguments[..]);
  }

  /**
   * `Constant.describeConstable`: the same loop under the revision's null
   * policy, then slot 0, wrapped in a `BOOTSTRAP_MAKE` recipe named
   * `DEFAULT_NAME` for this object's class.
   */
  method DescribeConstant(rev: Revision, c: Class, st: seq<Value>) returns (r: Result<Option<Desc>>)
    requires !c.iface.Canonical?
    ensures r == Describe(rev, Inst(c, st))
  {
    var serial := Serial(c, st);
    if serial.Err? {
      return Err(serial.error);
    }
    var constables := serial.value;
    var arguments := new Option<Desc>[|constables| + 1](_ => None);
    var failure := DescribeInto(rev, ElementPolicy(rev), constables, arguments, 1);
    if failure.Some? {
      return Err(failure.value);
    }
    arguments[0] := Some(Sig(Parameters(c)));
    assert arguments[..] == [Some(Sig(Parameters(c)))] + Slots(rev, ElementPolicy(rev), constables).value by {
      assert arguments[1..] == Slots(rev, ElementPolicy(rev), constables).value;
    }
    return Ok(Some(Dyn(Make, DEFAULT_NAME, c.name, arguments[..])));
  }

  /**
   * The recipe of an Array has one slot per element, in order: slot i is
   * element i itself when it is a descriptor and its description otherwise;
   * a null element leaves no recipe.
   */
  lemma ArrayRecipeLayout(rev: Revision, es: seq<Value>)
    requires Describe(rev, Arr(es)).Ok?
    ensures forall i :: 0 <= i < |es| ==>
      !es[i].Null? && Slot(rev, Dereference, es[i]).Ok?
      && Describe(rev, Arr(es)).value.value.args[i] == Slot(rev, Dereference, es[i]).value
  {
    SlotsAt(rev, Dereference, es);
  }

  /** An Array with a null element has no recipe: its element loop dereferences it. */
  lemma ArrayWithNullHasNoRecipe(rev: Revision, es: seq<Value>, i: nat)
    requires i < |es| && es[i].Null?
    ensures Describe(rev, Arr(es)).Err?
  {
    SlotsAt(rev, Dereference, es);
  }
}
