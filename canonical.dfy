/**
 * `Canonical`: constants with one interned representative per value and a
 * named static factory.
 *
 * The recipe of a canonical constant is `Utilities.getArguments` tagged with
 * the factory's name. `intern()` is abstract in the interface; `Registry`
 * is one implementation of it, a table from values to the identity of their
 * representative, against which the documented contract is proved.
 */
module CanonicalConstant {
  import opened Types
  import opened Decomposition
  import opened Recipe
  import opened Resolver

  /** The factory name a canonical class has unless it overrides `factoryMethodName()`. */
  const DEFAULT_FACTORY: string := "valueOf"

  /** `factoryMethodName()`: the declared override, else `valueOf`. */
  function FactoryMethodName(declared: Option<string>): (name: string)
    ensures declared.None? ==> name == DEFAULT_FACTORY
    ensures declared.Some? ==> name == declared.value
  {
    if declared.Some? then declared.value else DEFAULT_FACTORY
  }

  /**
   * A canonical class whose `factoryMethodName()` is `FactoryMethodName(factory)`
   * (the override, or `valueOf` when there is none) has every recipe named after
   * that factory, under the canonical bootstrap, for the class itself.
   */
  lemma CanonicalRecipeIsNamedByFactory(rev: Revision, name: TypeId, isRecord: bool, decomposition: Types.Decomposition,
                                        declared: seq<TypeId>, factory: Option<string>, st: seq<Value>)
    requires Describe(rev, Inst(Class(name, isRecord, Canonical(FactoryMethodName(factory)), decomposition, declared), st)).Ok?
    ensures var d := Describe(rev, Inst(Class(name, isRecord, Canonical(FactoryMethodName(factory)), decomposition, declared), st)).value;
      d.Some? && d.value.Dyn? && d.value.boot == Canon && d.value.cls == name
      && (factory.None? ==> d.value.name == "valueOf")
      && (factory.Some? ==> d.value.name == factory.value)
  {
    CanonicalRecipe(rev, Class(name, isRecord, Canonical(FactoryMethodName(factory)), decomposition, declared), st);
  }

  /**
   * `Canonical.describeConstable`: a `BOOTSTRAP_CANON` recipe named after the
   * factory, for the object's class, whose arguments are exactly
   * `Utilities.getArguments(this)`; so null elements become the NULL marker
   * whichever revision is modelled.
   */
  lemma CanonicalRecipe(rev: Revision, c: Class, st: seq<Value>)
    requires c.iface.Canonical?
    ensures Describe(rev, Inst(c, st)).Ok? <==> Arguments(rev, Marker, c, st).Ok?
    ensures Describe(rev, Inst(c, st)).Ok? ==>
      Describe(rev, Inst(c, st)).value == Some(Dyn(Canon, c.iface.factory, c.name, Arguments(rev, Marker, c, st).value))
    ensures Describe(rev, Inst(c, st)).Err? ==> Describe(rev, Inst(c, st)).error == Arguments(rev, Marker, c, st).error
  {
  }

  /** Object identities, as `==` on references compares them. */
  type Ref = nat

  /**
   * An interning table: the objects that exist, and for each value that has
   * been interned the identity of its representative.
   */
  datatype Registry = Registry(objects: map<Ref, Value>, reps: map<Value, Ref>)

  /** Every representative is an existing object holding the value it represents. */
  predicate Valid(r: Registry) {
    forall v :: v in r.reps ==> r.reps[v] in r.objects && r.objects[r.reps[v]] == v
  }

  /**
   * `intern()` on the object `id`: the representative already recorded for
   * its value, or else the object itself, which becomes the representative.
   */
  function Intern(r: Registry, id: Ref): (res: (Registry, Ref))
    requires Valid(r) && id in r.objects
    ensures Valid(res.0) && res.0.objects == r.objects
    ensures res.1 in r.objects && r.objects[res.1] == r.objects[id]
    ensures r.objects[id] in res.0.reps && res.0.reps[r.objects[id]] == res.1
    ensures forall v :: v in r.reps ==> v in res.0.reps && res.0.reps[v] == r.reps[v]
  {
    var v := r.objects[id];
    if v in r.reps then (r, r.reps[v]) else (r.(reps := r.reps[v := id]), id)
  }

  /**
   * The `intern()` contract for two equal canonical objects `a` and `b`,
   * interned in turn with any other interning in between: each equals the
   * other's representative, both get the same representative, interning
   * again gives the same one, and a representative is its own representative.
   */
  lemma InternContract(r: Registry, a: Ref, between: seq<Ref>, b: Ref)
    requires Valid(r) && a in r.objects && b in r.objects
    requires forall i :: 0 <= i < |between| ==> between[i] in r.objects
    requires r.objects[a] == r.objects[b]
    ensures var (r1, ia) := Intern(r, a);
      var r2 := InternAll(r1, between);
      var (r3, ib) := Intern(r2, b);
      && r.objects[a] == r.objects[ia]            // this.equals(this.intern())
      && r.objects[a] == r.objects[ib]            // this.equals(that.intern())
      && ib == ia                                 // this.intern() == that.intern()
      && Intern(r3, a).1 == ia                    // this.intern() == this.intern()
      && Intern(r3, ia).1 == ia                   // this.intern() == this.intern().intern()
  {
    var (r1, ia) := Intern(r, a);
    RepresentativesAreStable(r1, between, r.objects[a]);
  }

  /** A value's representative, once chosen, stays whatever is interned afterwards. */
  lemma {:induction false} RepresentativesAreStable(r: Registry, ids: seq<Ref>, v: Value)
    requires Valid(r) && forall i :: 0 <= i < |ids| ==> ids[i] in r.objects
    requires v in r.reps
    ensures v in InternAll(r, ids).reps && InternAll(r, ids).reps[v] == r.reps[v]
    decreases |ids|
  {
    if ids != [] {
      var r1 := Intern(r, ids[0]).0;
      RepresentativesAreStable(r1, ids[1..], v);
    }
  }

  /** Interning a series of objects in turn. */
  function InternAll(r: Registry, ids: seq<Ref>): (res: Registry)
    requires Valid(r) && forall i :: 0 <= i < |ids| ==> ids[i] in r.objects
    ensures Valid(res) && res.objects == r.objects
    decreases |ids|
  {
    if ids == [] then r else InternAll(Intern(r, ids[0]).0, ids[1..])
  }
}
