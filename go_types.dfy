/**
  Go's types and interface values, reduced to what the dispatcher can observe
  through reflection: a type's kind, the parameter types of a function, the
  element type of a slice, and method sets. "Implements" is structural: a type
  satisfies an interface when its method set contains every method the
  interface requires.
 */
module GoTypes {

  type MethodName = string

  /** A Go type as reflection describes it. Function and slice types are looked
      into; every other non-interface type (a struct, a pointer, an int, ...) is
      `Concrete` and known by its name and its method set. */
  datatype Type =
    | Func(ins: seq<Type>, outs: seq<Type>)
    | Slice(elem: Type)
    | Interface(methods: set<MethodName>)
    | Concrete(name: string, methods: set<MethodName>)

  /** What an `interface{}` holds: the untyped nil (no type at all), or a value
      of some dynamic type, told apart from other values of that type by `id`. */
  datatype Value = UntypedNil | Typed(typ: Type, id: nat)

  /** The predeclared `error` interface. */
  const ErrorType: Type := Interface({"Error"})

  /** `interface{}`, which every type satisfies. */
  const EmptyInterface: Type := Interface({})

  /** The methods a type has. Unnamed function and slice types have none. */
  function MethodSet(t: Type): set<MethodName>
  {
    match t
    case Interface(ms) => ms
    case Concrete(_, ms) => ms
    case Func(_, _) => {}
    case Slice(_) => {}
  }

  /** reflect's `Type.Implements`. Reflection panics on a target that is not an
      interface type, so the target must be one. */
  predicate TypeImplements(t: Type, iface: Type)
    requires iface.Interface?
  {
    iface.methods <= MethodSet(t)
  }

  /** `isError`: whether a type satisfies `error`, which is whether it has an
      Error method, whatever its kind. */
  function IsError(t: Type): (r: bool)
    ensures r <==> "Error" in MethodSet(t)
  {
    TypeImplements(t, ErrorType)
  }

  /** The helper `implements`: an untyped nil has no type and therefore matches
      no interface; any other value matches when its dynamic type does. */
  function Implements(v: Value, iface: Type): (r: bool)
    requires iface.Interface?
    ensures r ==> v.Typed?
    ensures v.Typed? ==> (r <==> TypeImplements(v.typ, iface))
  {
    if v.UntypedNil? then false else TypeImplements(v.typ, iface)
  }

  /** An untyped nil matches no interface, not even `interface{}`. */
  lemma UntypedNilMatchesNothing(iface: Type)
    requires iface.Interface?
    ensures !Implements(UntypedNil, iface)
  {
  }

  /** Every value that carries a type matches `interface{}`. */
  lemma TypedValueMatchesEmptyInterface(v: Value)
    requires v.Typed?
    ensures Implements(v, EmptyInterface)
  {
  }

  /** Satisfaction is transitive: a type satisfying an interface satisfies
      every interface that interface satisfies. */
  lemma TypeImplementsTransitive(t: Type, mid: Type, iface: Type)
    requires mid.Interface? && iface.Interface?
    requires TypeImplements(t, mid) && TypeImplements(mid, iface)
    ensures TypeImplements(t, iface)
  {
  }

  /** Unnamed function and slice types satisfy exactly the empty interface. */
  lemma CompositeTypesMatchOnlyEmpty(t: Type, iface: Type)
    requires t.Func? || t.Slice?
    requires iface.Interface?
    ensures TypeImplements(t, iface) <==> iface.methods == {}
  {
  }
}
