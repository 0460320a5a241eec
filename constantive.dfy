/**
 * `Constantive`: a value that can be represented as a constant. Its
 * recipe is the recipe of its `constant()`, or none when that is null.
 * Every constant is constantive and is its own `constant()`.
 */
module Constantive {
  import opened Types
  import opened Recipe
  import opened Resolver

  /** The values that implement Constantive: constants, Arrays and convertible objects. */
  predicate IsConstantive(v: Value) {
    v.Inst? || v.Arr? || v.Convertible?
  }

  /**
   * `constant()`: a constant (`Constant.constant`, `RecordConstant.constant`,
   * `Array.constant`) returns itself; a convertible object returns the
   * constant it converts to, possibly null.
   */
  function ConstantOf(v: Value): (c: Value)
    requires IsConstantive(v)
    ensures v.Inst? || v.Arr? ==> c == v
    ensures v.Convertible? ==> c == v.image
  {
    if v.Convertible? then v.image else v
  }

  /**
   * `Constantive.describeConstable`: an empty recipe when `constant()` is
   * null, otherwise exactly the recipe of `constant()`.
   */
  lemma DescribeDelegatesToConstant(rev: Revision, v: Value)
    requires v.Convertible?
    ensures ConstantOf(v).Null? ==> Describe(rev, v) == Ok(None)
    ensures !ConstantOf(v).Null? ==> Describe(rev, v) == Describe(rev, ConstantOf(v))
  {
  }

  /** For a constant, delegating through `constant()` changes nothing: it is its own constant. */
  lemma ConstantIsItsOwnConstant(rev: Revision, v: Value)
    requires v.Inst? || v.Arr?
    ensures IsConstantive(v) && ConstantOf(v) == v
    ensures Describe(rev, ConstantOf(v)) == Describe(rev, v)
  {
  }

  /**
   * A convertible object whose constant rebuilds has a recipe, and replaying
   * it yields that constant, not the convertible object itself.
   */
  lemma ConvertibleReplaysToItsConstant(rev: Revision, lk: Lookup, k: TypeId, image: Value)
    requires Rebuilds(rev, lk, image)
    ensures Describe(rev, Convertible(k, image)).Ok? && Describe(rev, Convertible(k, image)).value.Some?
    ensures Resolve(rev, lk, Describe(rev, Convertible(k, image)).value.value) == Ok(image)
  {
    RoundTrip(rev, lk, image);
  }
}
