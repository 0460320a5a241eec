/**
 * Shared vocabulary of the model: type names, runtime values, constant
 * descriptors (recipes), errors and the constructor lookup table.
 *
 * Reflection is replaced by data: a runtime object is a `Value`, an
 * instance of a constant class carries its class declaration with it (as
 * a JVM object carries its class), and constructor lookup is a table keyed
 * by (type, exact parameter list).
 */
module Types {

  /** A class, named by its binary name as `Class.getName` gives it. */
  type TypeId = string

  const OBJECT: TypeId := "java.lang.Object"
  const RECORD: TypeId := "java.lang.Record"
  const STRING: TypeId := "java.lang.String"
  const INTEGER: TypeId := "java.lang.Integer"
  const LONG: TypeId := "java.lang.Long"
  const FLOAT: TypeId := "java.lang.Float"
  const DOUBLE: TypeId := "java.lang.Double"
  const BOOLEAN: TypeId := "java.lang.Boolean"
  const CHARACTER: TypeId := "java.lang.Character"
  const SHORT: TypeId := "java.lang.Short"
  const BYTE: TypeId := "java.lang.Byte"
  const CONSTABLE: TypeId := "java.lang.constant.Constable"
  const CONSTABLE_ARRAY: TypeId := "[Ljava.lang.constant.Constable;"
  const METHOD_TYPE: TypeId := "java.lang.invoke.MethodType"
  const ARRAY: TypeId := "org.valross.constantine.Array"

  /** `ConstantDescs.DEFAULT_NAME`, the name of recipes that need none. */
  const DEFAULT_NAME: string := "_"

  /** The JVM names array classes with a leading '[' ("[Ljava.lang.String;", "[B"). */
  predicate IsArrayType(t: TypeId) {
    |t| > 0 && t[0] == '['
  }

  datatype Option<+T> = None | Some(value: T)

  /** Why a recipe could not be replayed. */
  datatype Failure =
    | NoSignature          // the argument list has no slot 0
    | BadSignature         // slot 0 is not a MethodType
    | NoSuchConstructor    // lookup found no constructor of that exact shape
    | WrongArity           // the constructor takes a different number of arguments
    | CastFailed           // an argument does not fit its parameter
    | NoBootstrap          // stands in for named-factory replay, which is not modelled

  datatype Error =
    | Deconstruction(owner: TypeId, runtime: Option<TypeId>)  // ConstantDeconstructionError
    | Construction(target: TypeId, cause: Failure)            // a failed replay
    | NullPointer                                             // a method called on null
    | NotConstable(offender: TypeId)                          // a non-Constable used as one
    | Unsupported                                             // UnsupportedOperationException
    | IllegalArgument                                         // IllegalArgumentException

  datatype Result<+T> = Ok(value: T) | Err(error: Error) {
    predicate IsFailure() {
      Err?
    }

    function PropagateFailure<U>(): Result<U>
      requires Err?
    {
      Err(error)
    }

    function Extract(): T
      requires Ok?
    {
      value
    }
  }

  /**
   * A library constable (String, a boxed primitive, an enum constant...),
   * identified by its class and its canonical text.
   */
  datatype Atom = Atom(cls: TypeId, text: string)

  /** The library classes that implement `ConstantDesc` themselves. */
  predicate IsDescAtom(a: Atom) {
    a.cls in {STRING, INTEGER, LONG, FLOAT, DOUBLE}
  }

  /** How a class implements `serial()` and `canonicalParameters()`. */
  datatype Decomposition =
    | Stored            // hand-written: returns the values it was built from, in order
    | RecordComponents  // RecordConstant's defaults, driven by the record components
    | Unit              // UnitConstant's defaults: nothing

  /** The most specific constancy interface a class implements. */
  datatype Interface =
    | PlainConstant
    | RecordConstant
    | Canonical(factory: string)

  /**
   * A constant class: its name, whether it is a record, its interface,
   * its decomposition and the declared parameter types (record component
   * types, or the hand-written `canonicalParameters()`).
   */
  datatype Class = Class(name: TypeId, isRecord: bool, iface: Interface,
                         decomposition: Decomposition, declared: seq<TypeId>)

  /** A runtime reference. */
  datatype Value =
    | Null
    | Lib(atom: Atom)
    | MethodType(params: seq<TypeId>)                   // void(params)
    | Inst(cls: Class, state: seq<Value>)               // an instance of a constant class
    | Arr(elems: seq<Value>)                            // org.valross.constantine.Array
    | Convertible(kind: TypeId, image: Value)           // a Constantive whose constant() is `image`
    | JavaArray(arrayType: TypeId, constableElems: bool, elems: seq<Value>)
    | Plain(kind: TypeId)                               // an object that is not Constable

  /** `v instanceof Constable` (false for null). */
  predicate IsConstable(v: Value) {
    v.Lib? || v.MethodType? || v.Inst? || v.Arr? || v.Convertible?
  }

  /** `v instanceof ConstantDesc` (false for null). */
  predicate IsDescValue(v: Value) {
    v.Lib? && IsDescAtom(v.atom)
  }

  /** `v.getClass()` for a non-null reference. */
  function RuntimeClass(v: Value): TypeId {
    match v
    case Null => ""
    case Lib(a) => a.cls
    case MethodType(_) => METHOD_TYPE
    case Inst(c, _) => c.name
    case Arr(_) => ARRAY
    case Convertible(k, _) => k
    case JavaArray(t, _, _) => t
    case Plain(k) => k
  }

  /** Which bootstrap method a recipe names. */
  datatype Bootstrap = Make | ArrayBoot | Canon

  /** A nominal constant descriptor. */
  datatype Desc =
    | NullDesc                      // ConstantDescs.NULL
    | Leaf(atom: Atom)              // a value that is its own ConstantDesc
    | Library(atom: Atom)           // the JDK's description of a library constable
    | Sig(params: seq<TypeId>)      // MethodTypeDesc of void(params)
    | Dyn(boot: Bootstrap, name: string, cls: TypeId, args: seq<Option<Desc>>)

  /** What a constructor found by lookup does when invoked. */
  datatype Constructor =
    | Stores(cls: Class)     // a canonical constructor: keeps its arguments in order
    | CollectsVarargs        // Array(Constable...): collects all arguments

  /**
   * The lookup capability: constructors keyed by (type, exact parameter
   * list) and public static factories (type, name, parameters, return type).
   */
  datatype Lookup = Lookup(ctors: map<(TypeId, seq<TypeId>), Constructor>,
                           factories: set<(TypeId, string, seq<TypeId>, TypeId)>)

  /** Structural size, the termination measure of every walk over values. */
  function Size(v: Value): (n: nat)
    ensures n >= 1
    decreases v
  {
    match v
    case Inst(_, st) => 1 + SeqSize(st)
    case Arr(es) => 1 + SeqSize(es)
    case JavaArray(_, _, es) => 1 + SeqSize(es)
    case Convertible(_, img) => 1 + Size(img)
    case _ => 1
  }

  function SeqSize(s: seq<Value>): nat
    decreases s
  {
    if s == [] then 0 else Size(s[0]) + SeqSize(s[1..])
  }
}
