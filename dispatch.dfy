/**
  The dispatcher: `Collection.FilterSlice` (batch mode) and `Collection.Filter`
  (single mode). The collection is a sequence of `interface{}` values that the
  dispatcher only reads. The callback is a value (whose type is validated) and
  `invoke`, the behaviour of calling it through reflection: it maps the argument
  to the results the call returns. Both methods return, besides the error, the
  trace of the arguments the callback was invoked with, in order.
 */
module Dispatch {
  import opened Wrappers
  import opened GoTypes
  import opened Shape

  /** What one invocation of the callback receives: one element (single mode)
      or the slice of all matching elements (batch mode). */
  datatype Arg = One(v: Value) | Many(vs: seq<Value>)

  /** One value returned by a reflective call: the declared (static) result
      type and the value, as `interface{}` would hold it. */
  datatype Returned = Returned(declared: Type, dyn: Value)

  /** What `Filter`/`FilterSlice` return: nil, an invalid-callback error, or an
      error the callback returned, relayed unchanged. */
  datatype Status = Ok | Invalid(reason: ShapeError) | Relayed(err: Value)

  // ---------------------------------------------------------------------------
  // Interpreting the callback's results
  // ---------------------------------------------------------------------------

  /** The error one invocation yields, if any: only the last result is looked
      at, only when its declared type satisfies `error`, and only when the
      assertion of its value to `error` gives a non-nil error. */
  function RelayedError(outVals: seq<Returned>): (r: Option<Value>)
    ensures r.Some? ==> outVals != [] && r.value == outVals[|outVals| - 1].dyn
    ensures r.Some? ==> IsError(outVals[|outVals| - 1].declared)
    ensures r.Some? ==> r.value.Typed?
  {
    if |outVals| == 0 then None
    else
      var last := outVals[|outVals| - 1];
      if IsError(last.declared) && Implements(last.dyn, ErrorType) then Some(last.dyn) else None
  }

  /** A returned value agrees with its declared type: a value of interface type
      is nil or of a type satisfying that interface; a value of any other type
      has exactly that type (a nil pointer, say, still carries its type). */
  predicate Conforms(ret: Returned)
  {
    if ret.declared.Interface?
    then ret.dyn.Typed? ==> TypeImplements(ret.dyn.typ, ret.declared)
    else ret.dyn.Typed? && ret.dyn.typ == ret.declared
  }

  /** For results that agree with their declared types, an error is relayed
      exactly when the last result is declared as an error and is not nil. */
  lemma RelayedErrorIffNonNilError(outVals: seq<Returned>)
    requires outVals != [] && Conforms(outVals[|outVals| - 1])
    ensures RelayedError(outVals).Some? <==>
              IsError(outVals[|outVals| - 1].declared) && outVals[|outVals| - 1].dyn.Typed?
  {
    var last := outVals[|outVals| - 1];
    if IsError(last.declared) && last.dyn.Typed? && last.declared.Interface? {
      TypeImplementsTransitive(last.dyn.typ, last.declared, ErrorType);
    }
  }

  /** Results before the last one are never examined. */
  lemma OnlyLastResultMatters(earlier: seq<Returned>, outVals: seq<Returned>)
    requires outVals != []
    ensures RelayedError(earlier + outVals) == RelayedError(outVals)
  {
    assert (earlier + outVals)[|earlier + outVals| - 1] == outVals[|outVals| - 1];
  }

  /** The status of a call whose callback yielded `e`. */
  function StatusOf(e: Option<Value>): (s: Status)
    ensures s.Ok? <==> e.None?
    ensures e.Some? ==> s == Relayed(e.value)
  {
    match e
    case None => Ok
    case Some(err) => Relayed(err)
  }

  /** Whether invoking the callback on `a` yields no error. */
  predicate NoError(invoke: Arg -> seq<Returned>, a: Arg)
  {
    RelayedError(invoke(a)).None?
  }

  /** The results of every call agree with the callback's signature: as many
      results as it declares, each with the declared type of its position and
      a value that agrees with that type. Reflection guarantees this for a
      callback of function type. */
  ghost predicate WellTyped(callback: Value, invoke: Arg -> seq<Returned>)
  {
    && callback.Typed? && callback.typ.Func?
    && forall a: Arg :: |invoke(a)| == |callback.typ.outs| &&
         forall k | 0 <= k < |invoke(a)| ::
           invoke(a)[k].declared == callback.typ.outs[k] && Conforms(invoke(a)[k])
  }

  /** Whether a callback signature can yield an error: its last declared
      result implements `error`. */
  predicate DeclaresError(outs: seq<Type>)
  {
    outs != [] && IsError(outs[|outs| - 1])
  }

  /** For a well-typed callback, the signature decides whether any call can
      yield an error: one without results, or whose last result does not
      implement `error`, never does; one whose last result implements `error`
      yields exactly the non-nil values it returns there. */
  lemma ResultTypesDecideRelay(callback: Value, invoke: Arg -> seq<Returned>, a: Arg)
    requires WellTyped(callback, invoke)
    ensures !DeclaresError(callback.typ.outs) ==> NoError(invoke, a)
    ensures DeclaresError(callback.typ.outs) ==>
              (RelayedError(invoke(a)).Some? <==> invoke(a)[|invoke(a)| - 1].dyn.Typed?)
  {
    var outVals := invoke(a);
    if outVals != [] {
      assert outVals[|outVals| - 1].declared == callback.typ.outs[|outVals| - 1];
      RelayedErrorIffNonNilError(outVals);
    }
  }

  /** A callback whose last declared result is an unnamed function or slice
      type never has that result relayed: such types have no Error method. */
  lemma CompositeLastResultNeverRelayed(callback: Value, invoke: Arg -> seq<Returned>, a: Arg)
    requires WellTyped(callback, invoke)
    requires callback.typ.outs != []
    requires callback.typ.outs[|callback.typ.outs| - 1].Func? ||
             callback.typ.outs[|callback.typ.outs| - 1].Slice?
    ensures NoError(invoke, a)
  {
    CompositeTypesMatchOnlyEmpty(callback.typ.outs[|callback.typ.outs| - 1], ErrorType);
    ResultTypesDecideRelay(callback, invoke, a);
  }

  /** In batch mode the status is the one call's outcome, so a well-typed
      callback that declares no error result always leaves batch mode with nil,
      whatever slice it is given. */
  lemma BatchStatusWithoutErrorResult(callback: Value, invoke: Arg -> seq<Returned>, vs: seq<Value>)
    requires WellTyped(callback, invoke) && !DeclaresError(callback.typ.outs)
    ensures StatusOf(RelayedError(invoke(Many(vs)))) == Ok
  {
    ResultTypesDecideRelay(callback, invoke, Many(vs));
  }

  // ---------------------------------------------------------------------------
  // The match set
  // ---------------------------------------------------------------------------

  /** The elements of `c` that implement `iface`, in collection order. */
  function Matching(c: seq<Value>, iface: Type): (r: seq<Value>)
    requires iface.Interface?
    ensures |r| <= |c|
    ensures forall k | 0 <= k < |r| :: Implements(r[k], iface)
  {
    if c == [] then []
    else
      var last := c[|c| - 1];
      Matching(c[..|c| - 1], iface) + (if Implements(last, iface) then [last] else [])
  }

  /** Matching distributes over concatenation, so the order of the collection
      is kept. */
  lemma {:induction false} MatchingConcat(a: seq<Value>, b: seq<Value>, iface: Type)
    requires iface.Interface?
    ensures Matching(a + b, iface) == Matching(a, iface) + Matching(b, iface)
  {
    if b != [] {
      var last := b[|b| - 1];
      assert (a + b)[..|a + b| - 1] == a + b[..|b| - 1];
      MatchingConcat(a, b[..|b| - 1], iface);
    } else {
      assert a + b == a;
    }
  }

  /** `r` is the subsequence of `c` at the strictly increasing positions `idx`. */
  ghost predicate SubsequenceAt(r: seq<Value>, c: seq<Value>, idx: seq<int>)
  {
    && |idx| == |r|
    && (forall k | 0 <= k < |idx| :: 0 <= idx[k] < |c| && r[k] == c[idx[k]])
    && (forall k, l | 0 <= k < l < |idx| :: idx[k] < idx[l])
  }

  /** The match set is the order-preserving subsequence of `c` at exactly the
      positions whose element implements `iface`: every such position is
      taken, and (by the contract of `Matching`) no other. */
  lemma {:induction false} MatchingPositions(c: seq<Value>, iface: Type) returns (idx: seq<int>)
    requires iface.Interface?
    ensures SubsequenceAt(Matching(c, iface), c, idx)
    ensures forall i | 0 <= i < |c| :: Implements(c[i], iface) <==> i in idx
  {
    if c == [] {
      idx := [];
    } else {
      var n := |c| - 1;
      var front := c[..n];
      var idx' := MatchingPositions(front, iface);
      assert forall i | 0 <= i < n :: front[i] == c[i];
      if Implements(c[n], iface) {
        idx := idx' + [n];
      } else {
        idx := idx';
      }
    }
  }

  /** An untyped nil element is never part of the match set, whatever the
      interface, `interface{}` included. */
  lemma MatchingExcludesUntypedNil(c: seq<Value>, iface: Type)
    requires iface.Interface?
    ensures UntypedNil !in Matching(c, iface)
  {
  }

  /** When every element implements the interface the match set is the whole
      collection; when none does it is empty. */
  lemma {:induction false} MatchingAllOrNone(c: seq<Value>, iface: Type)
    requires iface.Interface?
    ensures (forall i | 0 <= i < |c| :: Implements(c[i], iface)) ==> Matching(c, iface) == c
    ensures (forall i | 0 <= i < |c| :: !Implements(c[i], iface)) ==> Matching(c, iface) == []
  {
    if c != [] {
      var n := |c| - 1;
      assert forall i | 0 <= i < n :: c[..n][i] == c[i];
      MatchingAllOrNone(c[..n], iface);
      assert c[..n] + [c[n]] == c;
    }
  }

  /** The single-mode arguments for a sequence of elements. */
  function Ones(vs: seq<Value>): (r: seq<Arg>)
    ensures |r| == |vs|
    ensures forall k | 0 <= k < |vs| :: r[k] == One(vs[k])
  {
    seq(|vs|, k requires 0 <= k < |vs| => One(vs[k]))
  }

  lemma OnesConcat(a: seq<Value>, b: seq<Value>)
    ensures Ones(a + b) == Ones(a) + Ones(b)
  {
    assert forall k | 0 <= k < |a + b| :: Ones(a + b)[k] == (Ones(a) + Ones(b))[k];
  }

  /** The single-mode calls for a prefix of the collection are a prefix of the
      calls for the whole collection. */
  lemma MatchingPrefix(c: seq<Value>, n: nat, iface: Type)
    requires iface.Interface? && n <= |c|
    ensures Ones(Matching(c[..n], iface)) <= Ones(Matching(c, iface))
  {
    assert c[..n] + c[n..] == c;
    MatchingConcat(c[..n], c[n..], iface);
    OnesConcat(Matching(c[..n], iface), Matching(c[n..], iface));
  }

  // ---------------------------------------------------------------------------
  // FilterSlice
  // ---------------------------------------------------------------------------

  /** `FilterSlice`: validate the callback for batch mode; then collect the
      matching elements in order and invoke the callback exactly once with
      them, even when there are none; relay the error that call yields. */
  method FilterSlice(c: seq<Value>, callback: Value, invoke: Arg -> seq<Returned>)
    returns (status: Status, calls: seq<Arg>)
    ensures Validate(Batch, callback).Failure? ==>
              status == Invalid(Validate(Batch, callback).error) && calls == []
    ensures Validate(Batch, callback).Success? ==>
              && calls == [Many(Matching(c, Validate(Batch, callback).value))]
              && status == StatusOf(RelayedError(invoke(calls[0])))
  {
    var shape := Validate(Batch, callback);
    if shape.Failure? {
      return Invalid(shape.error), [];
    }
    var iType := shape.value;
    var params: seq<Value> := [];
    for i := 0 to |c|
      invariant params == Matching(c[..i], iType)
    {
      assert c[..i + 1][..i] == c[..i];
      if !Implements(c[i], iType) {
        continue;
      }
      params := params + [c[i]];
    }
    assert c[..|c|] == c;
    calls := [Many(params)];
    var outVals := invoke(Many(params));
    if |outVals| == 0 {
      return Ok, calls;
    }
    var last := outVals[|outVals| - 1];
    if IsError(last.declared) && Implements(last.dyn, ErrorType) {
      return Relayed(last.dyn), calls;
    }
    return Ok, calls;
  }

  // ---------------------------------------------------------------------------
  // Filter
  // ---------------------------------------------------------------------------

  /** What a single-mode dispatch over `c` with capability `iface` may do: the
      calls are, in order, a prefix of one call per matching element; every
      call but the last yields no error; the dispatch returns nil after calling
      for every matching element with none yielding an error, or stops at the
      first call that yields one and relays it. */
  ghost predicate SingleDispatched(c: seq<Value>, iface: Type, invoke: Arg -> seq<Returned>,
                                   status: Status, calls: seq<Arg>)
    requires iface.Interface?
  {
    && calls <= Ones(Matching(c, iface))
    && (forall k | 0 <= k < |calls| - 1 :: NoError(invoke, calls[k]))
    && match status
       case Ok =>
         calls == Ones(Matching(c, iface)) && (calls != [] ==> NoError(invoke, calls[|calls| - 1]))
       case Relayed(e) =>
         calls != [] && RelayedError(invoke(calls[|calls| - 1])) == Some(e)
       case Invalid(_) =>
         false
  }

  /** A loop over the first `n` elements that ended at an error satisfies the
      single-mode specification. */
  lemma StoppedDispatch(c: seq<Value>, n: nat, iface: Type, invoke: Arg -> seq<Returned>,
                        calls: seq<Arg>, e: Value)
    requires iface.Interface? && n <= |c|
    requires calls == Ones(Matching(c[..n], iface)) && calls != []
    requires forall k | 0 <= k < |calls| - 1 :: NoError(invoke, calls[k])
    requires RelayedError(invoke(calls[|calls| - 1])) == Some(e)
    ensures SingleDispatched(c, iface, invoke, Relayed(e), calls)
  {
    MatchingPrefix(c, n, iface);
  }

  /** A loop over the whole collection that met no error satisfies the
      single-mode specification. */
  lemma CompletedDispatch(c: seq<Value>, iface: Type, invoke: Arg -> seq<Returned>, calls: seq<Arg>)
    requires iface.Interface?
    requires calls == Ones(Matching(c, iface))
    requires forall k | 0 <= k < |calls| :: NoError(invoke, calls[k])
    ensures SingleDispatched(c, iface, invoke, Ok, calls)
  {
  }

  /** `Filter`: validate the callback for single mode; then invoke it on each
      matching element in collection order, stopping at the first invocation
      that yields an error and relaying that error. */
  method Filter(c: seq<Value>, callback: Value, invoke: Arg -> seq<Returned>)
    returns (status: Status, calls: seq<Arg>)
    ensures Validate(Single, callback).Failure? ==>
              status == Invalid(Validate(Single, callback).error) && calls == []
    ensures Validate(Single, callback).Success? ==>
              SingleDispatched(c, Validate(Single, callback).value, invoke, status, calls)
  {
    var shape := Validate(Single, callback);
    if shape.Failure? {
      return Invalid(shape.error), [];
    }
    var argType := shape.value;
    calls := [];
    for i := 0 to |c|
      invariant calls == Ones(Matching(c[..i], argType))
      invariant forall k | 0 <= k < |calls| :: NoError(invoke, calls[k])
    {
      assert c[..i + 1][..i] == c[..i];
      if !Implements(c[i], argType) {
        continue;
      }
      var outVals := invoke(One(c[i]));
      ghost var before := calls;
      calls := calls + [One(c[i])];
      OnesConcat(Matching(c[..i], argType), [c[i]]);
      if |outVals| == 0 {
        continue;
      }
      var last := outVals[|outVals| - 1];
      if IsError(last.declared) && Implements(last.dyn, ErrorType) {
        assert forall k | 0 <= k < |calls| - 1 :: calls[k] == before[k];
        StoppedDispatch(c, i + 1, argType, invoke, calls, last.dyn);
        return Relayed(last.dyn), calls;
      }
    }
    assert c[..|c|] == c;
    CompletedDispatch(c, argType, invoke, calls);
    return Ok, calls;
  }

  /** How many calls single mode makes over the argument list `args`: one per
      argument up to and including the first whose call yields an error. */
  function CallCount(invoke: Arg -> seq<Returned>, args: seq<Arg>): (n: nat)
    ensures n <= |args|
    ensures forall k | 0 <= k < n - 1 :: NoError(invoke, args[k])
    ensures n < |args| ==> 0 < n && !NoError(invoke, args[n - 1])
  {
    if args == [] then 0
    else if !NoError(invoke, args[0]) then 1
    else 1 + CallCount(invoke, args[1..])
  }

  /** A trace that is a prefix of `args`, passes every argument but its last
      without an error, and either covers all of `args` or ends at an error
      has exactly `CallCount` calls. */
  lemma {:induction false} StopsAtFirstError(invoke: Arg -> seq<Returned>, args: seq<Arg>,
                                             calls: seq<Arg>, relayed: bool)
    requires calls <= args
    requires forall k | 0 <= k < |calls| - 1 :: NoError(invoke, calls[k])
    requires relayed ==> calls != [] && !NoError(invoke, calls[|calls| - 1])
    requires !relayed ==> calls == args && (calls != [] ==> NoError(invoke, calls[|calls| - 1]))
    ensures |calls| == CallCount(invoke, args)
  {
    if calls == [] {
    } else if relayed && |calls| == 1 {
      assert args[0] == calls[0];
    } else {
      assert args[0] == calls[0];
      assert NoError(invoke, calls[0]);
      StopsAtFirstError(invoke, args[1..], calls[1..], relayed);
    }
  }

  /** Every single-mode dispatch makes `CallCount` calls: the calls are the
      first `CallCount` matching elements, and the status is nil unless the
      last of them yielded an error. */
  lemma SingleDispatchTrace(c: seq<Value>, iface: Type, invoke: Arg -> seq<Returned>,
                            status: Status, calls: seq<Arg>)
    requires iface.Interface?
    requires SingleDispatched(c, iface, invoke, status, calls)
    ensures calls == Ones(Matching(c, iface))[..CallCount(invoke, Ones(Matching(c, iface)))]
    ensures status == StatusOf(if calls == [] then None else RelayedError(invoke(calls[|calls| - 1])))
  {
    StopsAtFirstError(invoke, Ones(Matching(c, iface)), calls, status.Relayed?);
  }

  /** The outcome of a single-mode dispatch is determined by the collection,
      the capability and the callback: calling `Filter` again on the same
      collection with the same pure callback gives the same status and calls. */
  lemma SingleDispatchDeterministic(c: seq<Value>, iface: Type, invoke: Arg -> seq<Returned>,
                                    s1: Status, calls1: seq<Arg>, s2: Status, calls2: seq<Arg>)
    requires iface.Interface?
    requires SingleDispatched(c, iface, invoke, s1, calls1)
    requires SingleDispatched(c, iface, invoke, s2, calls2)
    ensures s1 == s2 && calls1 == calls2
  {
    SingleDispatchTrace(c, iface, invoke, s1, calls1);
    SingleDispatchTrace(c, iface, invoke, s2, calls2);
  }

  /** A single-mode dispatch returns nil exactly when no matching element
      makes the callback yield an error; otherwise it relays the error of the
      first matching element that does, and calls for no element after it. */
  lemma SingleDispatchOkIffNoMatchFails(c: seq<Value>, iface: Type, invoke: Arg -> seq<Returned>,
                                        status: Status, calls: seq<Arg>)
    requires iface.Interface?
    requires SingleDispatched(c, iface, invoke, status, calls)
    ensures status.Ok? <==> forall v | v in Matching(c, iface) :: NoError(invoke, One(v))
    ensures status.Relayed? ==>
              var m := Matching(c, iface);
              && 0 < |calls| <= |m|
              && calls == Ones(m[..|calls|])
              && RelayedError(invoke(One(m[|calls| - 1]))) == Some(status.err)
              && forall k | 0 <= k < |calls| - 1 :: NoError(invoke, One(m[k]))
  {
    var m := Matching(c, iface);
    var all := Ones(m);
    if status.Ok? {
      forall v | v in m ensures NoError(invoke, One(v)) {
        var k :| 0 <= k < |m| && m[k] == v;
        assert calls[k] == One(v);
      }
    } else {
      var k := |calls| - 1;
      assert calls[k] == all[k] == One(m[k]);
      assert m[k] in m;
      assert calls == Ones(m[..|calls|]);
    }
  }

  /** With a well-typed callback that declares no error result, single mode
      calls once for every matching element, in order, and returns nil. */
  lemma SingleDispatchWithoutErrorResult(c: seq<Value>, iface: Type, callback: Value,
                                         invoke: Arg -> seq<Returned>, status: Status, calls: seq<Arg>)
    requires iface.Interface?
    requires WellTyped(callback, invoke) && !DeclaresError(callback.typ.outs)
    requires SingleDispatched(c, iface, invoke, status, calls)
    ensures status == Ok && calls == Ones(Matching(c, iface))
  {
    forall v | v in Matching(c, iface) ensures NoError(invoke, One(v)) {
      ResultTypesDecideRelay(callback, invoke, One(v));
    }
    SingleDispatchOkIffNoMatchFails(c, iface, invoke, status, calls);
  }

  /** A collection with no matching element never reaches the callback, and
      the dispatch returns nil. */
  lemma SingleDispatchNoMatchNoCall(c: seq<Value>, iface: Type, invoke: Arg -> seq<Returned>,
                                    status: Status, calls: seq<Arg>)
    requires iface.Interface?
    requires SingleDispatched(c, iface, invoke, status, calls)
    requires forall i | 0 <= i < |c| :: !Implements(c[i], iface)
    ensures status == Ok && calls == []
  {
    MatchingAllOrNone(c, iface);
  }
}
