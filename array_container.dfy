/**
 * `org.valross.constantine.Array`: a frozen array of constables.
 *
 * The object keeps its elements in a private Java array that it fills when
 * it is built and never writes again; every way out (`serial()`, both
 * `toArray` forms) copies, and every mutator throws. Membership goes
 * through `Set.of`, which refuses null and duplicate elements.
 */
module ArrayContainer {
  import opened Types
  import opened Recipe

  /** The `Collection` mutators, all of which Array refuses. */
  datatype Mutator =
    | Add(element: Value)
    | Remove(element: Value)
    | AddAll(values: seq<Value>)
    | RemoveAll(values: seq<Value>)
    | RetainAll(values: seq<Value>)
    | Clear

  predicate Distinct(s: seq<Value>) {
    forall i, j :: 0 <= i < j < |s| ==> s[i] != s[j]
  }

  /** Position k is where `Set.of` gives up: a null, or a value already added. */
  predicate Offends(s: seq<Value>, k: nat)
    requires k < |s|
  {
    s[k].Null? || s[k] in s[..k]
  }

  /**
   * `Set.of(elements)`: elements are added in order, and the first one that
   * is null (NullPointerException) or already present
   * (IllegalArgumentException) aborts construction.
   */
  function SetOf(s: seq<Value>): (r: Result<set<Value>>)
    ensures r.Ok? ==> forall x :: x in r.value <==> x in s
  {
    if s == [] then Ok({})
    else
      var prefix :- SetOf(s[..|s| - 1]);
      var last := s[|s| - 1];
      if last.Null? then Err(NullPointer)
      else if last in prefix then Err(IllegalArgument)
      else
        assert s == s[..|s| - 1] + [last];
        Ok(prefix + {last})
  }

  /**
   * `Set.of` succeeds exactly when no position offends; otherwise its error
   * is decided by the first offending position.
   */
  lemma {:induction false} SetOfOutcome(s: seq<Value>)
    ensures SetOf(s).Ok? <==> forall k :: 0 <= k < |s| ==> !Offends(s, k)
    ensures SetOf(s).Err? ==>
      exists k :: 0 <= k < |s| && Offends(s, k)
        && (forall j :: 0 <= j < k ==> !Offends(s, j))
        && SetOf(s).error == (if s[k].Null? then NullPointer else IllegalArgument)
  {
    if s != [] {
      var n := |s| - 1;
      var p := s[..n];
      SetOfOutcome(p);
      forall j | 0 <= j < n
        ensures Offends(p, j) <==> Offends(s, j)
      {
        assert p[..j] == s[..j];
      }
      if SetOf(p).Err? {
        var k :| 0 <= k < n && Offends(p, k) && (forall j :: 0 <= j < k ==> !Offends(p, j))
          && SetOf(p).error == (if p[k].Null? then NullPointer else IllegalArgument);
        assert Offends(s, k);
        assert SetOf(s) == Err(SetOf(p).error);
      } else {
        assert forall j :: 0 <= j < n ==> !Offends(s, j);
        assert Offends(s, n) <==> s[n].Null? || s[n] in SetOf(p).value;
        if Offends(s, n) {
          assert SetOf(s).Err?;
        } else {
          assert SetOf(s).Ok?;
        }
      }
    }
  }

  /** No position offends exactly when the elements are non-null and distinct. */
  lemma NoOffenceIsDistinctNonNull(s: seq<Value>)
    ensures (forall k :: 0 <= k < |s| ==> !Offends(s, k))
        <==> (forall i :: 0 <= i < |s| ==> !s[i].Null?) && Distinct(s)
  {
    if forall k :: 0 <= k < |s| ==> !Offends(s, k) {
      forall i | 0 <= i < |s|
        ensures !s[i].Null?
      {
        assert !Offends(s, i);
      }
      forall i, j | 0 <= i < j < |s|
        ensures s[i] != s[j]
      {
        assert s[..j][i] == s[i];
        assert !Offends(s, j);
      }
    }
    if (forall i :: 0 <= i < |s| ==> !s[i].Null?) && Distinct(s) {
      forall k | 0 <= k < |s|
        ensures !Offends(s, k)
      {
        assert forall i :: 0 <= i < k ==> s[..k][i] == s[i];
      }
    }
  }

  /**
   * `AbstractCollection.containsAll` over a built set: the candidates in
   * order, false at the first absent one, NullPointerException at a null.
   */
  function ContainsEach(members: set<Value>, c: seq<Value>): (r: Result<bool>)
    ensures r == Ok(true) <==> forall i :: 0 <= i < |c| ==> !c[i].Null? && c[i] in members
    ensures r == Ok(false) ==> exists k :: 0 <= k < |c| && !c[k].Null? && c[k] !in members
    ensures r.Err? ==> r.error == NullPointer && exists k :: 0 <= k < |c| && c[k].Null?
  {
    if c == [] then Ok(true)
    else if c[0].Null? then Err(NullPointer)
    else if c[0] !in members then Ok(false)
    else
      var rest := ContainsEach(members, c[1..]);
      assert forall i :: 0 < i < |c| ==> c[i] == c[1..][i - 1];
      rest
  }

  /** Java's `int` arithmetic: the value modulo 2^32, read as a signed number. */
  function Wrap32(x: int): (w: int)
    ensures -0x8000_0000 <= w < 0x8000_0000
    ensures (w - x) % 0x1_0000_0000 == 0
  {
    (x + 0x8000_0000) % 0x1_0000_0000 - 0x8000_0000
  }

  /**
   * `Arrays.hashCode`: 31 times the hash so far plus the element's hash (0
   * for null), starting from 1, in 32-bit arithmetic. The elements' own
   * `hashCode` is the parameter `hash`.
   */
  function HashOf(hash: Value -> int, s: seq<Value>): (h: int)
    ensures -0x8000_0000 <= h < 0x8000_0000
  {
    if s == [] then 1
    else
      var last := s[|s| - 1];
      Wrap32(31 * HashOf(hash, s[..|s| - 1]) + (if last.Null? then 0 else hash(last)))
  }

  /** The same hash in unbounded arithmetic: 31^n plus each element's hash times 31 to the power of its distance from the end. */
  function UnboundedHash(hash: Value -> int, s: seq<Value>): int {
    if s == [] then 1
    else
      var last := s[|s| - 1];
      31 * UnboundedHash(hash, s[..|s| - 1]) + (if last.Null? then 0 else hash(last))
  }

  /** The 32-bit hash is the unbounded one modulo 2^32: overflow loses nothing else. */
  lemma {:induction false} HashOfIsUnboundedHashMod32(hash: Value -> int, s: seq<Value>)
    ensures (HashOf(hash, s) - UnboundedHash(hash, s)) % 0x1_0000_0000 == 0
  {
    if s != [] {
      var p, last := s[..|s| - 1], s[|s| - 1];
      var e := if last.Null? then 0 else hash(last);
      HashOfIsUnboundedHashMod32(hash, p);
      var x := 31 * HashOf(hash, p) + e;
      assert HashOf(hash, s) == Wrap32(x);
      assert UnboundedHash(hash, s) == 31 * UnboundedHash(hash, p) + e;
      CongruentStep(HashOf(hash, p), UnboundedHash(hash, p), e, Wrap32(x));
    }
  }

  /** If a and b agree modulo 2^32, so do any w congruent to 31a + e and 31b + e. */
  lemma CongruentStep(a: int, b: int, e: int, w: int)
    requires (a - b) % 0x1_0000_0000 == 0
    requires (w - (31 * a + e)) % 0x1_0000_0000 == 0
    ensures (w - (31 * b + e)) % 0x1_0000_0000 == 0
  {
    var k, j := (a - b) / 0x1_0000_0000, (w - (31 * a + e)) / 0x1_0000_0000;
    assert w - (31 * b + e) == 0x1_0000_0000 * (j + 31 * k);
  }

  class ConstantArray {
    /** The record component `serial`: a private array, filled once. */
    const serial: array<Value>

    /** The elements, in order. */
    function Elements(): seq<Value>
      reads serial
    {
      serial[..]
    }

    /** `Array(Constable...)`: keeps a copy, so later writes to `values` do not reach it. */
    constructor(values: array<Value>)
      ensures fresh(serial)
      ensures Elements() == values[..]
    {
      var copy := new Value[values.Length];
      for i := 0 to values.Length
        invariant copy[..i] == values[..i]
      {
        copy[i] := values[i];
      }
      serial := copy;
    }

    /** `Array(Collection)`: the collection's elements in its iteration order. */
    constructor FromCollection(values: seq<Value>)
      ensures fresh(serial)
      ensures Elements() == values
    {
      serial := new Value[|values|](i requires 0 <= i < |values| => values[i]);
    }

    /** `serial()`: a fresh array with the elements; writing to it leaves this Array as it was. */
    method Serial() returns (copy: array<Value>)
      ensures fresh(copy)
      ensures copy[..] == Elements()
    {
      copy := new Value[serial.Length];
      for i := 0 to serial.Length
        invariant copy[..i] == serial[..i]
      {
        copy[i] := serial[i];
      }
    }

    /** `toArray()`: the same fresh copy as `serial()`. */
    method ToArray() returns (copy: array<Value>)
      ensures fresh(copy)
      ensures copy[..] == Elements()
    {
      copy := Serial();
    }

    /** `toArray(Class)`: a fresh array of exactly `size()` holding the elements. */
    method ToTypedArray(componentType: TypeId) returns (copy: array<Value>)
      ensures fresh(copy)
      ensures copy[..] == Elements()
    {
      copy := new Value[serial.Length];
      for i := 0 to serial.Length
        invariant copy[..i] == serial[..i]
      {
        copy[i] := serial[i];
      }
    }

    /**
     * `toArray(Type...)`: when the caller's array is long enough the
     * elements are copied into its prefix and that same array is returned,
     * its positions from `size()` on untouched; otherwise the caller's array
     * is left alone and a fresh one of exactly `size()` is returned.
     */
    method ToArrayInto(dest: array<Value>) returns (r: array<Value>)
      requires dest != serial
      modifies dest
      ensures dest.Length >= serial.Length ==>
        r == dest && r[..serial.Length] == Elements() && r[serial.Length..] == old(dest[serial.Length..])
      ensures dest.Length < serial.Length ==>
        fresh(r) && r[..] == Elements() && dest[..] == old(dest[..])
    {
      if dest.Length < serial.Length {
        r := ToTypedArray("");
        return;
      }
      for i := 0 to serial.Length
        invariant dest[..i] == serial[..i]
        invariant dest[serial.Length..] == old(dest[serial.Length..])
      {
        dest[i] := serial[i];
      }
      r := dest;
    }

    /** `size()`. */
    function Size(): (n: nat)
      reads serial
      ensures n == |Elements()|
    {
      serial.Length
    }

    /** `isEmpty()`. */
    function IsEmpty(): (b: bool)
      reads serial
      ensures b <==> Elements() == []
    {
      serial.Length == 0
    }

    /**
     * `contains(o)`: defined only when the elements are distinct and non-null
     * (otherwise `Set.of` throws) and `o` is not null (the set throws); then
     * it holds exactly when `o` is one of the elements.
     */
    function Contains(o: Value): (r: Result<bool>)
      reads serial
      ensures r.Ok? <==> (forall i :: 0 <= i < |Elements()| ==> !Elements()[i].Null?) && Distinct(Elements()) && !o.Null?
      ensures r.Ok? ==> (r.value <==> o in Elements())
    {
      SetOfOutcome(serial[..]);
      NoOffenceIsDistinctNonNull(serial[..]);
      var members :- SetOf(serial[..]);
      if o.Null? then Err(NullPointer) else Ok(o in members)
    }

    /** `containsAll(c)`: the same `Set.of`, then every candidate in order. */
    function ContainsAll(c: seq<Value>): (r: Result<bool>)
      reads serial
      ensures r == Ok(true) <==>
        SetOf(Elements()).Ok? && forall i :: 0 <= i < |c| ==> !c[i].Null? && c[i] in Elements()
      ensures r == Ok(false) ==> exists k :: 0 <= k < |c| && !c[k].Null? && c[k] !in Elements()
    {
      var members :- SetOf(serial[..]);
      ContainsEach(members, c)
    }

    /** `add`, `remove`, `addAll`, `removeAll`, `retainAll`, `clear`: always refused; nothing changes. */
    method Mutate(op: Mutator) returns (r: Result<bool>)
      ensures r.Err? && r.error == Unsupported
    {
      r := Err(Unsupported);
    }

    /** `equals(o)`: the same object, or an Array with the same elements at the same positions. */
    predicate Equals(that: ConstantArray?)
      reads serial, if that == null then {} else {that.serial}
    {
      that != null
      && (that == this
          || (serial.Length == that.serial.Length
              && forall i :: 0 <= i < serial.Length ==> serial[i] == that.serial[i]))
    }

    /** Equality is element-wise and order-sensitive. */
    lemma EqualsIsElementwise(that: ConstantArray)
      ensures Equals(that) <==> Elements() == that.Elements()
    {
      if Elements() == that.Elements() {
        assert forall i :: 0 <= i < serial.Length ==> serial[i] == Elements()[i];
      }
    }

    /** Exchanging two different elements gives an Array that is not equal. */
    lemma ReorderingBreaksEquality(that: ConstantArray, i: nat, j: nat)
      requires i < j < |Elements()| && Elements()[i] != Elements()[j]
      requires that.Elements() == Elements()[i := Elements()[j]][j := Elements()[i]]
      ensures !Equals(that)
    {
      EqualsIsElementwise(that);
      assert that.Elements()[i] != Elements()[i];
    }

    /** `hashCode()`: `Arrays.hashCode` of the elements. */
    function HashCode(hash: Value -> int): (h: int)
      reads serial
      ensures h == HashOf(hash, Elements())
      ensures -0x8000_0000 <= h < 0x8000_0000
    {
      HashOf(hash, serial[..])
    }

    /** Equal Arrays have equal hash codes. */
    lemma EqualArraysHashAlike(that: ConstantArray, hash: Value -> int)
      requires Equals(that)
      ensures HashCode(hash) == that.HashCode(hash)
    {
      EqualsIsElementwise(that);
    }

    /** `clone()`: a new Array, with its own copy of the elements, equal to this one. */
    method Clone() returns (c: ConstantArray)
      ensures fresh(c) && fresh(c.serial)
      ensures c.Elements() == Elements()
      ensures c.Equals(this)
    {
      c := new ConstantArray(serial);
      c.EqualsIsElementwise(this);
    }

    /**
     * `Array.describeConstable`: a `BOOTSTRAP_ARRAY` recipe with one slot per
     * element and no signature slot; an element that is a descriptor is used
     * as it is, any other is described, and a null element is dereferenced.
     */
    method DescribeConstable(rev: Revision) returns (r: Result<Option<Desc>>)
      ensures r == Describe(rev, Arr(Elements()))
    {
      var constables := serial[..];
      var arguments := new Option<Desc>[serial.Length](_ => None);
      var failure := DescribeInto(rev, Dereference, constables, arguments, 0);
      if failure.Some? {
        return Err(failure.value);
      }
      assert arguments[..] == arguments[0..|constables|];
      return Ok(Some(Dyn(ArrayBoot, DEFAULT_NAME, ARRAY, arguments[..])));
    }
  }
}
