/**
 * How a constant takes itself apart: `serial()` and `canonicalParameters()`.
 *
 * A record constant walks its components in declaration order and classifies
 * each value; a hand-written `serial()` hands back the values the object was
 * built from; a unit constant has nothing to give.
 */
module Decomposition {
  import opened Types

  /** Every element of a sequence weighs no more than the whole sequence. */
  lemma {:induction false} ElementSize(s: seq<Value>, i: nat)
    requires i < |s|
    ensures Size(s[i]) <= SeqSize(s)
  {
    if i > 0 {
      ElementSize(s[1..], i - 1);
      assert s[1..][i - 1] == s[i];
    }
  }

  /**
   * One record component as `RecordConstant.serial` stores it: a Constable
   * unchanged, a `Constable[]` wrapped in `Array`, null as null, and any
   * other runtime class refused with a deconstruction error naming the
   * record and that class.
   */
  function Classify(record: TypeId, x: Value): (r: Result<Value>)
    ensures r.Ok? <==> IsConstable(x) || x.Null? || (x.JavaArray? && x.constableElems)
    ensures r.Ok? && x.JavaArray? ==> r.value == Arr(x.elems)
    ensures r.Ok? && !x.JavaArray? ==> r.value == x
    ensures r.Err? ==> r.error == Deconstruction(record, Some(RuntimeClass(x)))
    ensures r.Ok? ==> Size(r.value) <= Size(x)
  {
    if IsConstable(x) then Ok(x)
    else if x.JavaArray? && x.constableElems then Ok(Arr(x.elems))
    else if x.Null? then Ok(Null)
    else Err(Deconstruction(record, Some(RuntimeClass(x))))
  }

  /** The component loop of `RecordConstant.serial`: in order, stopping at the first refusal. */
  function ClassifyAll(record: TypeId, xs: seq<Value>): (r: Result<seq<Value>>)
    ensures r.Ok? ==> |r.value| == |xs| && SeqSize(r.value) <= SeqSize(xs)
  {
    if xs == [] then Ok([])
    else
      var head :- Classify(record, xs[0]);
      var tail :- ClassifyAll(record, xs[1..]);
      assert ([head] + tail)[1..] == tail;
      Ok([head] + tail)
  }

  /**
   * Element i of the serial form is component i classified; the whole walk
   * fails exactly when some component is refused, and then with the error of
   * the first refused component.
   */
  lemma {:induction false} ClassifyAllAt(record: TypeId, xs: seq<Value>)
    ensures ClassifyAll(record, xs).Ok? <==> forall i :: 0 <= i < |xs| ==> Classify(record, xs[i]).Ok?
    ensures ClassifyAll(record, xs).Ok? ==>
      forall i :: 0 <= i < |xs| ==> ClassifyAll(record, xs).value[i] == Classify(record, xs[i]).value
    ensures ClassifyAll(record, xs).Err? ==>
      exists k :: 0 <= k < |xs| && Classify(record, xs[k]).Err?
        && (forall i :: 0 <= i < k ==> Classify(record, xs[i]).Ok?)
        && ClassifyAll(record, xs).error == Classify(record, xs[k]).error
  {
    if xs != [] {
      ClassifyAllAt(record, xs[1..]);
      assert forall i :: 0 < i < |xs| ==> xs[1..][i - 1] == xs[i];
      if Classify(record, xs[0]).Ok? && ClassifyAll(record, xs[1..]).Err? {
        var k :| 0 <= k < |xs[1..]| && Classify(record, xs[1..][k]).Err?
          && (forall i :: 0 <= i < k ==> Classify(record, xs[1..][i]).Ok?)
          && ClassifyAll(record, xs[1..]).error == Classify(record, xs[1..][k]).error;
        assert forall i :: 0 <= i < k + 1 ==> Classify(record, xs[i]).Ok? by {
          forall i | 0 <= i < k + 1
            ensures Classify(record, xs[i]).Ok?
          {
            if i > 0 {
              assert xs[i] == xs[1..][i - 1];
            }
          }
        }
      }
    }
  }

  /** A record whose components are all Constables or null serialises to exactly those components. */
  lemma ConstableComponentsPassThrough(record: TypeId, xs: seq<Value>)
    requires forall i :: 0 <= i < |xs| ==> IsConstable(xs[i]) || xs[i].Null?
    ensures ClassifyAll(record, xs) == Ok(xs)
  {
    ClassifyAllAt(record, xs);
    var r := ClassifyAll(record, xs);
    assert forall i :: 0 <= i < |xs| ==> Classify(record, xs[i]) == Ok(xs[i]);
    assert r.Ok?;
    assert |r.value| == |xs| && forall i :: 0 <= i < |xs| ==> r.value[i] == xs[i];
    assert r.value == xs;
  }

  /** `serial()` of an instance whose state is `st`. */
  function Serial(c: Class, st: seq<Value>): (r: Result<seq<Value>>)
    ensures r.Ok? ==> SeqSize(r.value) <= SeqSize(st)
    ensures c.decomposition.Unit? ==> r == Ok([])
    ensures c.decomposition.Stored? ==> r == Ok(st)
    ensures c.decomposition.RecordComponents? ==> r.Ok? ==> |r.value| == |st|
  {
    match c.decomposition
    case Unit => Ok([])
    case Stored => Ok(st)
    case RecordComponents => ClassifyAll(c.name, st)
  }

  /** `canonicalParameters()`: the declared component types, or none for a unit constant. */
  function Parameters(c: Class): (ps: seq<TypeId>)
    ensures c.decomposition.Unit? ==> ps == []
    ensures !c.decomposition.Unit? ==> ps == c.declared
  {
    if c.decomposition.Unit? then [] else c.declared
  }

  /** An instance whose state has one value per declared parameter. */
  predicate WellShaped(c: Class, st: seq<Value>) {
    (c.decomposition.Unit? ==> st == [])
    && (!c.decomposition.Unit? ==> |st| == |c.declared|)
  }

  /** Whenever `serial()` succeeds on a well-shaped instance it lines up with `canonicalParameters()`. */
  lemma SerialMatchesParameters(c: Class, st: seq<Value>)
    requires WellShaped(c, st) && Serial(c, st).Ok?
    ensures |Serial(c, st).value| == |Parameters(c)|
  {
  }

  /**
   * `RecordConstant.serial` as the Java loop runs it: an argument array is
   * filled index by index, and the first component that is none of Constable,
   * Constable[] or null aborts the walk.
   */
  method RecordSerial(record: TypeId, components: seq<Value>) returns (r: Result<seq<Value>>)
    ensures r == ClassifyAll(record, components)
  {
    ClassifyAllAt(record, components);
    var arguments := new Value[|components|];
    for i := 0 to |components|
      invariant forall k :: 0 <= k < i ==>
        Classify(record, components[k]).Ok? && arguments[k] == Classify(record, components[k]).value
    {
      var component := components[i];
      var stored: Value;
      if IsConstable(component) {
        stored := component;
      } else if component.JavaArray? && component.constableElems {
        stored := Arr(component.elems);
      } else if component.Null? {
        stored := Null;
      } else {
        return Err(Deconstruction(record, Some(RuntimeClass(component))));
      }
      arguments[i] := stored;
    }
    assert arguments[..] == ClassifyAll(record, components).value;
    return Ok(arguments[..]);
  }

  /** `RecordConstant.canonicalParameters`: the component types, copied in declaration order. */
  method RecordCanonicalParameters(c: Class) returns (parameters: seq<TypeId>)
    requires c.decomposition.RecordComponents?
    ensures |parameters| == |c.declared|
    ensures forall i :: 0 <= i < |c.declared| ==> parameters[i] == c.declared[i]
    ensures parameters == Parameters(c)
  {
    var a := new TypeId[|c.declared|];
    for i := 0 to |c.declared|
      invariant a[..i] == c.declared[..i]
    {
      a[i] := c.declared[i];
    }
    assert c.declared[..|c.declared|] == c.declared;
    parameters := a[..];
  }

  /** The record `fromConstable` declares locally to wrap one Constable. */
  const WRAPPER: Class := Class("org.valross.constantine.Constant$1ConstantWrapper", true,
                                PlainConstant, Stored, [CONSTABLE])

  /** `Constant.fromConstable`: a constant holding exactly the given Constable. */
  function FromConstable(x: Value): (w: Value)
    requires IsConstable(x) || x.Null?
    ensures w.Inst? && w.cls == WRAPPER
    ensures Serial(w.cls, w.state) == Ok([x])
    ensures Parameters(w.cls) == [CONSTABLE]
  {
    Inst(WRAPPER, [x])
  }

  /** A unit constant decomposes into nothing and is built from nothing. */
  lemma UnitDecomposition(c: Class, st: seq<Value>)
    requires c.decomposition.Unit?
    ensures Serial(c, st) == Ok([]) && Parameters(c) == []
  {
  }
}
