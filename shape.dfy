/**
  Callback-shape validation. Both entry points run the same fail-fast chain and
  differ only in what they require of the callback's single parameter: batch
  mode (`FilterSlice`) wants a slice of an interface type, single mode
  (`Filter`) wants an interface type. The first violated requirement decides
  the error.
 */
module Shape {
  import opened Wrappers
  import opened GoTypes

  /** Which entry point validates: `Filter` (Single) or `FilterSlice` (Batch). */
  datatype Mode = Single | Batch

  /** The invalid-callback errors, one per requirement. Single mode reuses
      `ArgNotSliceOfInterface` when its parameter is not an interface: its
      message says "slice of interface" although no slice is involved. */
  datatype ShapeError =
    | NilCallback                 // "callback must not be an untyped nil"
    | NotFunction(found: Type)    // "callback must be a function, got ... (type ...)"
    | WrongArity(count: nat)      // "callback must have exactly 1 argument, got n"
    | ArgNotSlice                 // "argument in callback must be slice"
    | ArgNotSliceOfInterface      // "argument in callback must be a slice of interface"

  /** The callback is a function value of exactly one parameter. */
  predicate IsUnaryFunc(callback: Value)
  {
    callback.Typed? && callback.typ.Func? && |callback.typ.ins| == 1
  }

  /** The parameter shape each mode accepts. */
  predicate AcceptsParam(mode: Mode, param: Type)
  {
    match mode
    case Single => param.Interface?
    case Batch => param.Slice? && param.elem.Interface?
  }

  /** The capability (interface type) an accepted parameter designates. */
  function Capability(mode: Mode, param: Type): (iface: Type)
    requires AcceptsParam(mode, param)
    ensures iface.Interface?
  {
    match mode
    case Single => param
    case Batch => param.elem
  }

  /** The validation chain. Success carries the interface elements are matched
      against; each failure names the first requirement the callback breaks. */
  function Validate(mode: Mode, callback: Value): (r: Result<Type, ShapeError>)
    ensures r.Success? <==> IsUnaryFunc(callback) && AcceptsParam(mode, callback.typ.ins[0])
    ensures r.Success? ==> r.value.Interface? && r.value == Capability(mode, callback.typ.ins[0])
    ensures r == Failure(NilCallback) <==> callback.UntypedNil?
    ensures (r.Failure? && r.error.NotFunction?) <==> callback.Typed? && !callback.typ.Func?
    ensures r.Failure? && r.error.NotFunction? ==> r.error.found == callback.typ
    ensures (r.Failure? && r.error.WrongArity?) <==>
              callback.Typed? && callback.typ.Func? && |callback.typ.ins| != 1
    ensures r.Failure? && r.error.WrongArity? ==> r.error.count == |callback.typ.ins|
    ensures r == Failure(ArgNotSlice) <==>
              IsUnaryFunc(callback) && mode == Batch && !callback.typ.ins[0].Slice?
    ensures r == Failure(ArgNotSliceOfInterface) <==>
              IsUnaryFunc(callback) && !AcceptsParam(mode, callback.typ.ins[0]) &&
              (mode == Batch ==> callback.typ.ins[0].Slice?)
  {
    if callback.UntypedNil? then Failure(NilCallback)
    else if !callback.typ.Func? then Failure(NotFunction(callback.typ))
    else if |callback.typ.ins| != 1 then Failure(WrongArity(|callback.typ.ins|))
    else
      var arg := callback.typ.ins[0];
      match mode
      case Batch =>
        if !arg.Slice? then Failure(ArgNotSlice)
        else if !arg.elem.Interface? then Failure(ArgNotSliceOfInterface)
        else Success(arg.elem)
      case Single =>
        if !arg.Interface? then Failure(ArgNotSliceOfInterface)
        else Success(arg)
  }

  /** The two modes run the same first three checks: a callback that is not a
      function of one parameter gets the same error from both. */
  lemma ModesAgreeOnCommonChecks(callback: Value)
    requires !IsUnaryFunc(callback)
    ensures Validate(Single, callback) == Validate(Batch, callback)
    ensures Validate(Single, callback).Failure?
  {
  }

  /** A batch-shaped callback `func([]I, ...)` is accepted by `FilterSlice`
      with capability I and rejected by `Filter`, which wants a bare interface. */
  lemma BatchShapeOnlyFitsBatch(iface: Type, outs: seq<Type>, id: nat)
    requires iface.Interface?
    ensures Validate(Batch, Typed(Func([Slice(iface)], outs), id)) == Success(iface)
    ensures Validate(Single, Typed(Func([Slice(iface)], outs), id)) == Failure(ArgNotSliceOfInterface)
  {
  }

  /** A single-shaped callback `func(I, ...)` is accepted by `Filter` with
      capability I and rejected by `FilterSlice`, which wants a slice. */
  lemma SingleShapeOnlyFitsSingle(iface: Type, outs: seq<Type>, id: nat)
    requires iface.Interface?
    ensures Validate(Single, Typed(Func([iface], outs), id)) == Success(iface)
    ensures Validate(Batch, Typed(Func([iface], outs), id)) == Failure(ArgNotSlice)
  {
  }

  /** No constraint is placed on the results: validation looks at the
      parameters only. */
  lemma ValidateIgnoresResults(mode: Mode, ins: seq<Type>, outs1: seq<Type>, outs2: seq<Type>, id: nat)
    ensures Validate(mode, Typed(Func(ins, outs1), id)) == Validate(mode, Typed(Func(ins, outs2), id))
  {
  }
}
