/**
 * `validate()`: what a constant checks about itself before describing
 * itself. Every interface asks that the class is constant; a plain or record
 * constant also needs a constructor taking exactly `canonicalParameters()`,
 * a record constant must be a record, and a canonical constant needs a
 * public static factory of the declared name returning its own class.
 */
module Validation {
  import opened Types
  import opened Decomposition
  import opened Recipe
  import opened Resolver
  import Validator

  /** `hasCanonicalConstructor`: lookup finds a constructor of exactly these parameter types. */
  predicate HasCanonicalConstructor(lk: Lookup, cls: TypeId, params: seq<TypeId>) {
    (cls, params) in lk.ctors
  }

  /** `hasCanonicalFactory`: a static method of this name and parameters returning the class. */
  predicate HasCanonicalFactory(lk: Lookup, cls: TypeId, name: string, params: seq<TypeId>) {
    (cls, name, params, cls) in lk.factories
  }

  /** `validate()`, dispatched on the interface that supplies it. */
  function Validate(h: Validator.Hierarchy, lk: Lookup, c: Class): (ok: bool)
    requires Validator.Valid(h) && c.name in h.types
    ensures c.iface.PlainConstant? ==>
      (ok <==> Validator.IsConstant(h, c.name) && (c.name, Parameters(c)) in lk.ctors)
    ensures c.iface.RecordConstant? ==>
      (ok <==> c.isRecord && Validator.IsConstant(h, c.name) && (c.name, Parameters(c)) in lk.ctors)
    ensures c.iface.Canonical? ==>
      (ok <==> Validator.IsConstant(h, c.name) && (c.name, c.iface.factory, Parameters(c), c.name) in lk.factories)
  {
    match c.iface
    case PlainConstant =>
      Validator.IsConstant(h, c.name) && HasCanonicalConstructor(lk, c.name, Parameters(c))
    case RecordConstant =>
      c.isRecord && Validator.IsConstant(h, c.name) && HasCanonicalConstructor(lk, c.name, Parameters(c))
    case Canonical(factory) =>
      Validator.IsConstant(h, c.name) && HasCanonicalFactory(lk, c.name, factory, Parameters(c))
  }

  /** A record constant on a class that is not a record never validates. */
  lemma NonRecordFailsRecordValidation(h: Validator.Hierarchy, lk: Lookup, c: Class)
    requires Validator.Valid(h) && c.name in h.types
    requires c.iface.RecordConstant? && !c.isRecord
    ensures !Validate(h, lk, c)
  {
  }

  /**
   * What validation buys the replay: once a plain or record constant
   * validates, `bootstrap` on its signature-prefixed arguments always finds
   * the constructor; what can still go wrong is the arity or the
   * arguments themselves. This holds when `validate` and `bootstrap` see the
   * same `Lookup`: the one `lk` stands for both.
   */
  lemma ValidatedConstructorIsFound(rev: Revision, h: Validator.Hierarchy, lk: Lookup, c: Class, xs: seq<Value>)
    requires Validator.Valid(h) && c.name in h.types && !c.iface.Canonical?
    requires Validate(h, lk, c)
    ensures var r := MakeBootstrap(rev, lk, c.name, [MethodType(Parameters(c))] + xs);
      r.Err? ==> r.error == Construction(c.name, WrongArity) || r.error == Construction(c.name, CastFailed)
  {
    var serial := [MethodType(Parameters(c))] + xs;
    assert serial[0] == MethodType(Parameters(c));
    var r := MakeBootstrap(rev, lk, c.name, serial);
    if r.Err? {
      assert r == Invoke(rev, lk.ctors[(c.name, Parameters(c))], c.name, Parameters(c), serial[1..]);
    }
  }
}
