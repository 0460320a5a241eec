/**
 * The constancy check `Constant.isConstant` over a reflection table.
 *
 * Two definitions are given. `IsConstant` is the check on an acyclic table,
 * where every type the check recurses into has a smaller rank. `Check` is the
 * Java method step by step (fields in order, static fields skipped, early
 * return on the first failure, then the superclass) with a bound on the
 * recursion depth; on a table with a cycle it can run out of depth, as the
 * Java method overflows its stack. `CheckAgrees` ties the two together.
 */
module Validator {
  import opened Types

  /** A public field as `Class.getFields` reports it. */
  datatype Field = Field(name: string, isStatic: bool, isFinal: bool, declared: TypeId)

  /** What reflection says about one class. */
  datatype TypeInfo = TypeInfo(
    primitive: bool,
    isEnum: bool,
    constable: bool,            // Constable.class.isAssignableFrom(type)
    implementsConstant: bool,   // Constant.class.isAssignableFrom(type)
    packageName: string,
    fields: seq<Field>,         // every public field, inherited ones included
    superclass: Option<TypeId>)

  /** A reflection table, with a rank that orders the types the check visits. */
  datatype Hierarchy = Hierarchy(types: map<TypeId, TypeInfo>, rank: map<TypeId, nat>)

  predicate StartsWith(s: string, prefix: string) {
    |prefix| <= |s| && s[..|prefix|] == prefix
  }

  /** `isJavaConstant`: primitives, enums, `Record` and `java.*` constables. */
  predicate IsJavaConstant(t: TypeId, info: TypeInfo) {
    info.primitive || info.isEnum || t == RECORD
    || (info.constable && StartsWith(info.packageName, "java."))
  }

  /** The types on which `isConstant` goes on to inspect fields and superclass. */
  predicate Recurses(t: TypeId, info: TypeInfo) {
    !IsJavaConstant(t, info) && info.implementsConstant
  }

  /** Every type a table mentions is described by it. */
  predicate Closed(types: map<TypeId, TypeInfo>) {
    forall t :: t in types ==>
      (forall f :: f in types[t].fields ==> f.declared in types)
      && (types[t].superclass.Some? ==> types[t].superclass.value in types)
  }

  /** Array classes implement only Cloneable and Serializable. */
  predicate ArraysAreArrays(types: map<TypeId, TypeInfo>) {
    forall t :: t in types && IsArrayType(t) ==>
      !types[t].primitive && !types[t].isEnum && !types[t].constable && !types[t].implementsConstant
  }

  /** The check's recursion only ever moves to a type of smaller rank. */
  predicate Ranked(h: Hierarchy) {
    forall t :: t in h.types ==>
      t in h.rank
      && (Recurses(t, h.types[t]) ==>
            (forall f :: f in h.types[t].fields && !f.isStatic && f.isFinal ==>
               f.declared in h.rank && h.rank[f.declared] < h.rank[t])
            && (h.types[t].superclass.Some? && h.types[t].superclass.value != OBJECT ==>
                  h.types[t].superclass.value in h.rank
                  && h.rank[h.types[t].superclass.value] < h.rank[t]))
  }

  predicate Valid(h: Hierarchy) {
    Closed(h.types) && ArraysAreArrays(h.types) && Ranked(h)
  }

  /** `Constant.isConstant` on an acyclic table. */
  function IsConstant(h: Hierarchy, t: TypeId): bool
    requires Valid(h) && t in h.types
    decreases h.rank[t]
  {
    var info := h.types[t];
    IsJavaConstant(t, info)
    || (info.implementsConstant
        && (forall f | f in info.fields && !f.isStatic :: f.isFinal && IsConstant(h, f.declared))
        && (info.superclass.None? || info.superclass.value == OBJECT
            || IsConstant(h, info.superclass.value)))
  }

  /**
   * `Constant.isConstant` as the Java code runs it; `None` when the recursion
   * goes deeper than `depth` calls.
   */
  function Check(types: map<TypeId, TypeInfo>, t: TypeId, depth: nat): Option<bool>
    requires Closed(types) && t in types
    decreases depth, 0
  {
    if depth == 0 then None
    else
      var info := types[t];
      if IsJavaConstant(t, info) then Some(true)
      else if !info.implementsConstant then Some(false)
      else match CheckFields(types, info.fields, depth - 1)
        case None => None
        case Some(false) => Some(false)
        case Some(true) =>
          if info.superclass.None? || info.superclass.value == OBJECT then Some(true)
          else Check(types, info.superclass.value, depth - 1)
  }

  /** The loop over `getFields()`. */
  function CheckFields(types: map<TypeId, TypeInfo>, fields: seq<Field>, depth: nat): Option<bool>
    requires Closed(types) && forall f :: f in fields ==> f.declared in types
    decreases depth, 1, |fields|
  {
    if fields == [] then Some(true)
    else
      var f := fields[0];
      if f.isStatic then CheckFields(types, fields[1..], depth)
      else if !f.isFinal then Some(false)
      else match Check(types, f.declared, depth)
        case None => None
        case Some(false) => Some(false)
        case Some(true) => CheckFields(types, fields[1..], depth)
  }

  /** With more depth than the rank, the Java method returns the acyclic answer. */
  lemma {:induction false} CheckAgrees(h: Hierarchy, t: TypeId, depth: nat)
    requires Valid(h) && t in h.types && depth > h.rank[t]
    ensures Check(h.types, t, depth) == Some(IsConstant(h, t))
    decreases h.rank[t], 1
  {
    var info := h.types[t];
    if Recurses(t, info) {
      CheckFieldsAgrees(h, t, info.fields, depth - 1);
      if info.superclass.Some? && info.superclass.value != OBJECT {
        CheckAgrees(h, info.superclass.value, depth - 1);
      }
    }
  }

  lemma {:induction false} CheckFieldsAgrees(h: Hierarchy, t: TypeId, fields: seq<Field>, depth: nat)
    requires Valid(h) && t in h.types && Recurses(t, h.types[t])
    requires forall f :: f in fields ==> f in h.types[t].fields
    requires depth >= h.rank[t]
    ensures forall f :: f in fields ==> f.declared in h.types
    ensures CheckFields(h.types, fields, depth)
         == Some(forall f | f in fields && !f.isStatic :: f.isFinal && IsConstant(h, f.declared))
    decreases h.rank[t], 0, |fields|
  {
    if fields != [] {
      var f := fields[0];
      assert forall g :: g in fields[1..] ==> g in fields;
      CheckFieldsAgrees(h, t, fields[1..], depth);
      if !f.isStatic && f.isFinal {
        CheckAgrees(h, f.declared, depth);
      }
      assert forall g :: g in fields <==> g == f || g in fields[1..];
    }
  }

  /**
   * Without a rank the Java method need not return: a `Constant` class with a
   * public final field of its own type, reached after only static fields and
   * final fields of built-in constant types, recurses until the stack runs out.
   */
  lemma {:induction false} SelfReferenceDiverges(types: map<TypeId, TypeInfo>, t: TypeId,
                                                 pre: seq<Field>, name: string, post: seq<Field>, depth: nat)
    requires Closed(types) && t in types && Recurses(t, types[t])
    requires types[t].fields == pre + [Field(name, false, true, t)] + post
    requires forall f :: f in pre ==> f.isStatic || (f.isFinal && IsJavaConstant(f.declared, types[f.declared]))
    ensures Check(types, t, depth) == None
    decreases depth
  {
    if depth > 0 {
      var fields := types[t].fields;
      assert forall f :: f in fields ==> f.declared in types;
      assert forall f :: f in [Field(name, false, true, t)] + post ==> f in fields;
      SelfReferenceDiverges(types, t, pre, name, post, depth - 1);
      assert CheckFields(types, [Field(name, false, true, t)] + post, depth - 1) == None;
      assert fields == pre + ([Field(name, false, true, t)] + post);
      SkippedFieldsPassThrough(types, pre, [Field(name, false, true, t)] + post, depth - 1);
    }
  }

  /**
   * Static fields and final fields of built-in constant types never stop the
   * field loop early: the loop ends as it does on the fields after them.
   */
  lemma {:induction false} SkippedFieldsPassThrough(types: map<TypeId, TypeInfo>, pre: seq<Field>, rest: seq<Field>, depth: nat)
    requires Closed(types)
    requires forall f :: f in pre + rest ==> f.declared in types
    requires forall f :: f in pre ==> f.isStatic || (f.isFinal && IsJavaConstant(f.declared, types[f.declared]))
    requires CheckFields(types, rest, depth) == None
    ensures CheckFields(types, pre + rest, depth) == None
    decreases |pre|
  {
    if pre == [] {
      assert pre + rest == rest;
    } else {
      var f, all := pre[0], pre + rest;
      assert all[0] == f && all[1..] == pre[1..] + rest;
      assert forall g :: g in pre[1..] ==> g in pre;
      SkippedFieldsPassThrough(types, pre[1..], rest, depth);
      if !f.isStatic && depth > 0 {
        assert Check(types, f.declared, depth) == Some(true);
      }
    }
  }

  /** Primitives, enums, `Record` and `java.*` constables are constant. */
  lemma JavaConstantsAreConstant(h: Hierarchy, t: TypeId)
    requires Valid(h) && t in h.types && IsJavaConstant(t, h.types[t])
    ensures IsConstant(h, t)
  {
  }

  /** A type that is no such built-in and does not implement Constant is not constant. */
  lemma OthersAreNotConstant(h: Hierarchy, t: TypeId)
    requires Valid(h) && t in h.types
    requires !IsJavaConstant(t, h.types[t]) && !h.types[t].implementsConstant
    ensures !IsConstant(h, t)
  {
  }

  /** Array types are none of the built-ins and do not implement Constant. */
  lemma ArrayTypesAreNotConstant(h: Hierarchy, t: TypeId)
    requires Valid(h) && t in h.types && IsArrayType(t)
    ensures !IsConstant(h, t)
  {
    assert t != RECORD by { assert t[0] == '[' && RECORD[0] == 'j'; }
  }

  /**
   * For a Constant type: static fields are skipped, every public instance
   * field must be final and of constant type, and the superclass must be
   * absent, Object or constant.
   */
  lemma ConstantTypeRules(h: Hierarchy, t: TypeId)
    requires Valid(h) && t in h.types && Recurses(t, h.types[t])
    ensures IsConstant(h, t) <==>
      (forall f | f in h.types[t].fields && !f.isStatic :: f.isFinal && IsConstant(h, f.declared))
      && (h.types[t].superclass.None? || h.types[t].superclass.value == OBJECT
          || IsConstant(h, h.types[t].superclass.value))
  {
  }

  /** One non-final public instance field makes a non-built-in type non-constant. */
  lemma MutableFieldBreaksConstancy(h: Hierarchy, t: TypeId, f: Field)
    requires Valid(h) && t in h.types && !IsJavaConstant(t, h.types[t])
    requires f in h.types[t].fields && !f.isStatic && !f.isFinal
    ensures !IsConstant(h, t)
  {
  }
}
