# ifilter, modelled in Dafny

`ifilter` filters a `Collection` (a `[]interface{}`) by an interface that a
callback names in its parameter type. It uses reflection to do this.
`Collection.FilterSlice` calls the callback once. The argument is the slice of
all elements that implement the interface, in collection order.
`Collection.Filter` calls the callback once per matching element, in order,
and stops at the first call that returns an error. Both check the callback's
shape before they look at any element. Both return an error only when the
shape is wrong, or when the callback returns a non-nil error in its last
result.

The model replaces Go's type system with a small abstract one:

- `GoTypes`: types are function, slice, interface or other ("concrete")
  types. A value is the untyped nil or a value of some dynamic type. An
  interface is satisfied when a type's method set contains its methods. This
  module models `implements` and `isError`.
- `Shape`: the validation chain of both entry points, as one function
  `Validate(mode, callback)`. It returns the capability (the interface) or the
  first broken requirement, as a tagged `ShapeError`.
- `Dispatch`: `FilterSlice` and `Filter` as methods with loops, like the
  source. The callback is a value, whose type is validated, plus a function
  `invoke` that maps an argument to the results the reflective call returns.
  Each result carries its declared type and its value. Each method returns the
  status (nil, an invalid-callback error, or a relayed error) and the trace of
  arguments the callback received. `Matching` is the specification of the
  match set. `SingleDispatched` is the specification of single mode.
  `CallCount` is a reference definition of how many calls single mode makes.
- `Scenarios`: the package example and the cases of the test table. Each is a
  method whose postcondition gives the exact status and trace.

The collection is a `seq<Value>`. The Go methods have value receivers and only
read `c[i]`. With a value-type collection, the model's "the collection is not
modified" holds by construction.

The code differs from its own doc comments in two places, and from its test
table in a third. The model follows the code:

- The doc comment of `Filter` asks for a callback `func(i I) error`
  (filter.go:74-85). A single-mode callback whose parameter is not an
  interface is rejected with the message "argument in callback must be a
  slice of interface" (filter.go:99-100), although no slice is involved. The
  model reuses `ArgNotSliceOfInterface` for it.
- The doc comments say the callback "can optionally return an error"
  (filter.go:29, 83). The code looks at the last of any number of results, and
  only when its declared type implements `error` (filter.go:63-70, 108-115).
  The model does the same.
- The test table (filter_test.go:122-133) passes batch-shaped callbacks
  `func([]i)` to `Filter`. Under filter.go:98-101 all of these are rejected.
  The table's expectations match `FilterSlice`, so the `Scenarios` module
  states them for `FilterSlice`. `Scenarios.SingleRejectsBatchShape`
  shows what `Filter` does with such a callback.

## Model

| member | source | states |
|---|---|---|
| `GoTypes.Implements` | filter.go:124-130 | a value matches an interface only if it carries a type, and then exactly when its dynamic type implements the interface |
| `GoTypes.UntypedNilMatchesNothing` | filter.go:124-128 | an untyped nil matches no interface |
| `GoTypes.TypedValueMatchesEmptyInterface` | filter.go:124-130 | every value with a type matches `interface{}`, so only the untyped nil is excluded from it |
| `GoTypes.IsError` | filter.go:120-122 | `isError` holds exactly of the types that have an `Error` method, whatever their kind |
| `GoTypes.TypeImplementsTransitive` | filter.go:129 | a type that implements an interface also implements every interface that interface implements |
| `Shape.Validate` | filter.go:34-50 | the callback is accepted exactly when it is a function of one parameter of the mode's shape; the result is then the parameter's interface (batch, filter.go:34-51) or the parameter itself (single, filter.go:88-101); otherwise the error is the first broken requirement in the order nil, not a function, arity (with the count), not a slice, not an interface |
| `Shape.ModesAgreeOnCommonChecks` | filter.go:88-97 | a callback that is not a one-parameter function is rejected, with the same error by both entry points |
| `Shape.BatchShapeOnlyFitsBatch` | filter.go:98-101 | `func([]I, …)` is accepted by batch mode with capability I and rejected by single mode with the "slice of interface" error |
| `Shape.SingleShapeOnlyFitsSingle` | filter.go:44-47 | `func(I, …)` is accepted by single mode with capability I and rejected by batch mode as not a slice |
| `Shape.ValidateIgnoresResults` | filter.go:34-50 | validation places no constraint on the callback's results |
| `Dispatch.RelayedError` | filter.go:63-70 | an error is relayed only from a non-empty result list, only when the last result's declared type implements `error`, and it is that last value unchanged and never nil |
| `Dispatch.RelayedErrorIffNonNilError` | filter.go:66-69 | for results that agree with their declared types, an error is relayed exactly when the last result is declared as an error and is not nil |
| `Dispatch.OnlyLastResultMatters` | filter.go:66 | results before the last one never affect the outcome |
| `Dispatch.ResultTypesDecideRelay` | filter.go:63-70 | for a callback whose results agree with its signature, a signature with no results, or whose last result does not implement `error`, never yields an error; one whose last result does yields an error exactly when that result is not nil |
| `Dispatch.CompositeLastResultNeverRelayed` | filter.go:63-70 | a callback whose last declared result is an unnamed function or slice type never has an error relayed, since such types have no `Error` method |
| `Dispatch.BatchStatusWithoutErrorResult` | filter.go:62-71 | in batch mode, a callback that declares no error result makes the status nil, whatever slice it is given |
| `Dispatch.Matching` | filter.go:53-59 | the match set is no longer than the collection and holds only elements that implement the interface |
| `Dispatch.MatchingConcat` | filter.go:54-58 | matching a concatenation is the concatenation of the matches, so collection order is kept |
| `Dispatch.MatchingPositions` | filter.go:53-59 | the match set is the subsequence of the collection at strictly increasing positions, and these are exactly the positions whose element implements the interface |
| `Dispatch.MatchingExcludesUntypedNil` | filter.go:55 | an untyped nil is never in the match set, for any interface |
| `Dispatch.MatchingAllOrNone` | filter.go:54-58 | when every element matches, the match set is the collection; when none does, it is empty |
| `Dispatch.FilterSlice` | filter.go:33-72 | on a shape error: that error, and no call; otherwise exactly one call, with the match set in collection order (possibly empty), and the status is the error that call yields, or nil |
| `Dispatch.Filter` | filter.go:87-118 | on a shape error: that error, and no call; otherwise the calls are a prefix of one call per matching element in collection order; every call but the last yields no error; the result is nil after all matching elements, or the error of the first call that yields one, with no call after it |
| `Dispatch.CallCount` | filter.go:103-117 | reference count of single-mode calls: every argument before the count's last yields no error, and a count short of all arguments ends at one that does |
| `Dispatch.SingleDispatchTrace` | filter.go:103-117 | a single-mode dispatch calls exactly the first `CallCount` matching elements, and its status is the error of the last call, or nil |
| `Dispatch.SingleDispatchDeterministic` | filter.go:87-118 | two single-mode dispatches over the same collection with the same callback give the same status and the same calls |
| `Dispatch.SingleDispatchOkIffNoMatchFails` | filter.go:108-117 | single mode returns nil exactly when no matching element makes the callback yield an error; otherwise it relays the error of the first element that does, after calling exactly the matching elements up to it |
| `Dispatch.SingleDispatchWithoutErrorResult` | filter.go:107-117 | in single mode, a callback that declares no error result is called once per matching element, in order, and the status is nil |
| `Dispatch.SingleDispatchNoMatchNoCall` | filter.go:103-106 | with no matching element, the callback is never called and the result is nil |
| `Scenarios.ExampleReaders` | example_test.go:11-19 | `Filter` with `func(io.Reader)` over a file, a buffer, an empty struct, nil, 42 and a nil reader calls the callback with the file, then the buffer, and returns nil |
| `Scenarios.BatchBasic` | filter_test.go:29-41 | of a mock and an empty struct, only the mock is passed |
| `Scenarios.BatchNone` | filter_test.go:42-51 | with no match, the one call gets an empty slice |
| `Scenarios.BatchAll` | filter_test.go:52-61 | with two mocks, both are passed, in order |
| `Scenarios.BatchEmpty` | filter_test.go:62-71 | an empty collection still gets one call, with an empty slice |
| `Scenarios.BatchTwoMockTypes` | filter_test.go:72-81 | a type with more methods than the interface asks for also matches |
| `Scenarios.BatchRelaysCallbackError` | filter_test.go:82-89 | an error returned by the callback is the result |
| `Scenarios.BatchRejections` | filter_test.go:90-119 | `func([]mock)`, `func(int)`, `func()`, `1` and `nil` are rejected with their errors and never called |
| `Scenarios.SingleRejectsBatchShape` | filter_test.go:122-133 | `Filter` rejects the table's batch-shaped callback with the "slice of interface" error and never calls it |
| `Scenarios.SingleStopsAtFirstError` | filter.go:107-114 | with two matching elements and a callback that fails on the first, `Filter` relays that error and never calls it with the second |

## Left out

- The reflection library itself (`TypeOf`, `MakeSlice`, `Append`, `Call`, `Interface()`) is not modelled. Types are the `Type` datatype and a call is the `invoke` function. Building `sValue` with `MakeSlice` and `Append` (filter.go:60-61) is the sequence of matching values itself.
- Go's real method-set rules are not modelled: pointer and value receivers, embedding, unexported methods, and method signatures. A method set is a set of names, and implementing is inclusion.
- Named function and slice types that declare methods are not modelled. Function and slice types have empty method sets here.
- Variadic callbacks are not modelled. For `func(...I)`, `reflect.Call` would build the variadic slice itself.
- The text of the errors is not modelled, including the `%v` of the callback and its type (filter.go:39, 93). Each error is a `ShapeError` kind. The arity error keeps the count, and the not-a-function error keeps the type.
- The unused variadic `Option` parameter (filter.go:15-19, 33, 87) is not modelled.
- Side effects of the callback are not modelled. `invoke` is a pure function of its argument, so a callback whose results depend on earlier calls, or that changes the collection during `Filter`, is outside the model.
- Printing in example_test.go and the `testing.T` plumbing in filter_test.go are not modelled. Their cases appear as the `Scenarios` methods.
- FilterSlice and Filter: a typed nil function value (a nil `func(I)` stored in an `interface{}`) passes validation, and reflect's `Call` then panics (filter.go:62, 107). Values here carry no nil-ness for typed values, so the model calls such a callback like any other function.
