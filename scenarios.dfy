/**
  Concrete dispatches: the package example and the cases of the test table,
  stated as methods whose postconditions give the exact status and trace.
 */
module Scenarios {
  import opened Wrappers
  import opened GoTypes
  import opened Shape
  import opened Dispatch

  // Types of the package example.
  const Reader: Type := Interface({"Read"})
  const FilePtr: Type := Concrete("*os.File", {"Read", "Write", "Close"})
  const BufferPtr: Type := Concrete("*bytes.Buffer", {"Read", "Write", "String"})
  const EmptyStruct: Type := Concrete("struct {}", {})
  const Int: Type := Concrete("int", {})

  // Types of the test table.
  const I: Type := Interface({"f"})
  const Mock: Type := Concrete("ifilter.mock", {"f"})
  const Mock2: Type := Concrete("ifilter.mock2", {"f", "f2"})
  const ErrorString: Type := Concrete("*errors.errorString", {"Error"})

  /** A callback that returns nothing. */
  function NoResults(a: Arg): seq<Returned>
  {
    []
  }

  /** The package example: `Filter` with `func(io.Reader)` over a file, a
      buffer, an empty struct, nil, 42 and a nil `io.Reader` (which, stored in
      an `interface{}`, is the untyped nil) reaches the file, then the buffer. */
  method ExampleReaders() returns (status: Status, calls: seq<Arg>)
    ensures status == Ok
    ensures calls == [One(Typed(FilePtr, 0)), One(Typed(BufferPtr, 0))]
  {
    var file, buffer := Typed(FilePtr, 0), Typed(BufferPtr, 0);
    var readers, others := [file, buffer], [Typed(EmptyStruct, 0), UntypedNil, Typed(Int, 42), UntypedNil];
    var collection := readers + others;
    MatchingConcat(readers, others, Reader);
    MatchingAllOrNone(readers, Reader);
    MatchingAllOrNone(others, Reader);
    status, calls := Filter(collection, Typed(Func([Reader], []), 0), NoResults);
  }

  /** The callback of the batch cases of the test table: `func([]i)`. */
  const BatchCallback: Value := Typed(Func([Slice(I)], []), 0)

  /** "basic": of a mock and an empty struct, only the mock reaches the callback. */
  method BatchBasic() returns (status: Status, calls: seq<Arg>)
    ensures status == Ok && calls == [Many([Typed(Mock, 0)])]
  {
    var mock, plain := Typed(Mock, 0), Typed(EmptyStruct, 0);
    assert [mock, plain] == [mock] + [plain];
    MatchingConcat([mock], [plain], I);
    MatchingAllOrNone([mock], I);
    MatchingAllOrNone([plain], I);
    assert Matching([mock, plain], I) == [mock];
    status, calls := FilterSlice([mock, plain], BatchCallback, NoResults);
  }

  /** "none": nothing matches, and the callback is still called, with no elements. */
  method BatchNone() returns (status: Status, calls: seq<Arg>)
    ensures status == Ok && calls == [Many([])]
  {
    MatchingAllOrNone([Typed(EmptyStruct, 0)], I);
    status, calls := FilterSlice([Typed(EmptyStruct, 0)], BatchCallback, NoResults);
  }

  /** "all": both mocks reach the callback, in order. */
  method BatchAll() returns (status: Status, calls: seq<Arg>)
    ensures status == Ok && calls == [Many([Typed(Mock, 0), Typed(Mock, 1)])]
  {
    MatchingAllOrNone([Typed(Mock, 0), Typed(Mock, 1)], I);
    status, calls := FilterSlice([Typed(Mock, 0), Typed(Mock, 1)], BatchCallback, NoResults);
  }

  /** "empty": an empty collection still gets its one call. */
  method BatchEmpty() returns (status: Status, calls: seq<Arg>)
    ensures status == Ok && calls == [Many([])]
  {
    status, calls := FilterSlice([], BatchCallback, NoResults);
  }

  /** "two mock of different type": a type with more methods than `i` asks
      for implements it too. */
  method BatchTwoMockTypes() returns (status: Status, calls: seq<Arg>)
    ensures status == Ok && calls == [Many([Typed(Mock, 0), Typed(Mock2, 0)])]
  {
    MatchingAllOrNone([Typed(Mock, 0), Typed(Mock2, 0)], I);
    status, calls := FilterSlice([Typed(Mock, 0), Typed(Mock2, 0)], BatchCallback, NoResults);
  }

  /** A callback returning an error: `errors.New("err")` from `func([]i) error`
      over an empty collection is relayed, after the one call with no elements. */
  method BatchRelaysCallbackError() returns (status: Status, calls: seq<Arg>)
    ensures status == Relayed(Typed(ErrorString, 7))
    ensures calls == [Many([])]
  {
    var err := Typed(ErrorString, 7);
    status, calls := FilterSlice([], Typed(Func([Slice(I)], [ErrorType]), 0),
                                 (a: Arg) => [Returned(ErrorType, err)]);
  }

  /** The rejected callbacks of the test table, in batch mode: `func([]mock)`,
      `func(int)`, `func()`, `1` and `nil`. None of them is ever called. */
  method BatchRejections() returns (statuses: seq<Status>, calls: seq<Arg>)
    ensures statuses == [Invalid(ArgNotSliceOfInterface), Invalid(ArgNotSlice), Invalid(WrongArity(0)),
                         Invalid(NotFunction(Int)), Invalid(NilCallback)]
    ensures calls == []
  {
    var collection := [Typed(Mock, 0), Typed(EmptyStruct, 0)];
    var s1, c1 := FilterSlice(collection, Typed(Func([Slice(Mock)], []), 0), NoResults);
    var s2, c2 := FilterSlice(collection, Typed(Func([Int], []), 0), NoResults);
    var s3, c3 := FilterSlice(collection, Typed(Func([], []), 0), NoResults);
    var s4, c4 := FilterSlice(collection, Typed(Int, 1), NoResults);
    var s5, c5 := FilterSlice(collection, UntypedNil, NoResults);
    statuses := [s1, s2, s3, s4, s5];
    calls := c1 + c2 + c3 + c4 + c5;
  }

  /** The test table hands its batch-shaped callbacks to `Filter`, which
      rejects them: its parameter must be an interface, not a slice. */
  method SingleRejectsBatchShape() returns (status: Status, calls: seq<Arg>)
    ensures status == Invalid(ArgNotSliceOfInterface)
    ensures calls == []
  {
    status, calls := Filter([Typed(Mock, 0), Typed(EmptyStruct, 0)],
                            Typed(Func([Slice(I)], []), 0), NoResults);
  }

  /** A callback that returns `errors.New(...)` whatever it is given. */
  function AlwaysFails(a: Arg): seq<Returned>
  {
    [Returned(ErrorType, Typed(ErrorString, 1))]
  }

  /** Single mode stops at the first error: with two matching elements and a
      callback that fails on the first, the second is never passed on. */
  method SingleStopsAtFirstError() returns (status: Status, calls: seq<Arg>)
    ensures status == Relayed(Typed(ErrorString, 1))
    ensures calls == [One(Typed(Mock, 0))]
  {
    var mock, mock2 := Typed(Mock, 0), Typed(Mock2, 0);
    var callback := Typed(Func([I], [ErrorType]), 0);
    assert Validate(Single, callback) == Success(I);
    MatchingAllOrNone([mock, mock2], I);
    var all := Ones([mock, mock2]);
    assert all[0] == One(mock) && !NoError(AlwaysFails, all[0]);
    assert CallCount(AlwaysFails, all) == 1;
    status, calls := Filter([mock, mock2], callback, AlwaysFails);
    SingleDispatchTrace([mock, mock2], I, AlwaysFails, status, calls);
    assert calls == all[..1];
  }
}
