# pwkit mathlib: shapes, library resolution and the tidying adapter

This project models the core of `pwkit/mathlib.py`. That module gives array-like objects of several kinds (numpy arrays and wrapper types that bring their own "math function library") one set of "Common Interface" math functions. The model covers these parts:

- **Shapes** (`shapes.dfy`).
  - `broadcast_shapes` is modelled as a method. `padded` is the sequence of left-padded shapes. `result` is an array that starts as the first padded row and is merged column by column in place. In the source, `result` is a view of row 0 of `padded`; the other rows are only read, so keeping `result` separate changes nothing observable.
  - The method is proved equal to a declarative broadcast, defined column by column. Shorter shapes are left-padded with 1s. Each position takes the common non-1 size, or 1. Two different non-1 sizes at one position are an error, and 0 counts as non-1.
  - Proved properties: the characterisation in both directions, when it fails, when a result shape absorbs every input, that identical shapes are kept, commutativity of two shapes, and associativity of three.
- **Registry** (`registry.dfy`).
  - Calling conventions (`Signatures`), the `Flags` bitmask, and the full `common_interface_functions` catalogue.
  - The catalogue is built by indexing the entries by name, so later entries override earlier ones.
- **Resolution and dispatch** (`resolution.dfy`).
  - `get_library_for` is a method with the source's loops. The numpy fast path comes first. After it, the first library advertised by an operand that accepts every operand wins, in operand order.
  - `get_library_for` is proved against a declarative definition. The first-match rule and the error case are each stated in both directions.
  - The free-function dispatchers (`_dispatch_std_unary`, `_dispatch_std_binary`, `_dispatch_other_1`) and the in-place operator rule ("self is `out`").
- **Test arrays** (`ndarray.dfy`).
  - `TestArrayWrapper` is a class over a shape, a dtype and a flat row-major buffer.
  - The data of `np.broadcast_to` is modelled, with its length, its identity on the array's own shape, and its spreading of a zero-dimensional value.
  - Element by element, each position of the broadcast reads the source at its multi-index projected onto the source's shape: padded leading dimensions are dropped and size-1 dimensions are read at 0 (`NdArrays.BroadcastDataAt`).
- **Tidying adapter** (`tidy.dfy`).
  - `TidiedFunctionLibrary._tidy_std_unary` and `_tidy_std_binary` are modelled step by step: the broadcast, the rejection of a bad `out` before anything is written, the allocation of the result, reshapes of zero-dimensional data, and broadcasting of the smaller inputs.
  - `TestWrappedLibrary.tidy_negative` and `tidy_add` write into `out.data`. Their contracts cover aliasing between an input and `out`.
  - `a += b` between two wrappers is modelled as well.
- **Masks** (`cmask.dfy`). `NumpyFunctionLibrary.cmask` is modelled as an in-place mask refined by `isnan` and `isfinite`. Both are predicates on an abstract floating-point value.

The adapter is parameterised by a `Provider` that says whether `reshape` is implemented. The test provider, `TestWrappedLibrary`, does not implement it: it inherits the base library's not-implemented stub (`pwkit/mathlib.py:321-338`, registry entry `reshape`). So with the test provider, every zero-dimensional path ends in `NotImplementedError('reshape')`. A provider that implements `reshape` as a view reaches the paths behind it.

One such path is modelled as written, not corrected. With no `out` and a zero-dimensional broadcast, both adapters reshape the inputs to `(1,)`, but they allocate `out` with the original shape `()` (`pwkit/mathlib.py:563-576` and `603-621`). The class documentation promises the tidy functions at-least-1-D operands (`pwkit/mathlib.py:533-536`). Even so, `tidy_*` receives a zero-dimensional `out`. With `tidy_negative`/`tidy_add`, the slice assignment `out.data[:]` then raises IndexError, and nothing is returned. The contracts of `Tidy.TidyStdUnary` and `Tidy.TidyStdBinary` state exactly this outcome.

## Model

| member | source | states |
|---|---|---|
| Shapes.MaxLen | pwkit/mathlib.py:65 | the result bounds every input length and is attained by some input when there is one |
| Shapes.BroadcastShapes | pwkit/mathlib.py:56-79 | the nested loops over `padded`, rewriting row 0 in place, return exactly the declarative broadcast `Broadcast(shapes)`, including its error for no shapes and for a mismatch |
| Shapes.ColumnSpec | pwkit/mathlib.py:69-77 | a column agrees and merges to `v` iff every size in it is 1 or `v`, and `v` is 1 or occurs in the column: the result is 1 iff all padded inputs are 1 there, otherwise the common non-1 size (0 counts as non-1) |
| Shapes.BroadcastSpec | pwkit/mathlib.py:65-79 | `broadcast_shapes` succeeds with `r` iff there is at least one shape, `r` has the maximum input length, and at each position every left-padded input is 1 or `r[i]`, with `r[i]` 1 or taken from some input |
| Shapes.BroadcastMismatch | pwkit/mathlib.py:69-77 | the shape-mismatch error is raised iff two padded inputs have different non-1 sizes at the same position |
| Shapes.BroadcastCoversInputs | pwkit/mathlib.py:65-79 | every input broadcasts to the result |
| Shapes.OutCheckUnary | pwkit/mathlib.py:580-583 | the unary `out` check passes (the broadcast of `x` and `out` is `out`'s shape) iff `x` broadcasts to `out`'s shape |
| Shapes.OutCheckBinary | pwkit/mathlib.py:627-630 | the binary `out` check passes iff both `x` and `y` broadcast to `out`'s shape |
| Shapes.BroadcastOntoLast | pwkit/mathlib.py:580-582 | broadcasting some shapes together with an `out` shape gives back exactly `out`'s shape iff every one of those shapes broadcasts to it |
| Shapes.BroadcastIdentical | pwkit/mathlib.py:65-79 | a single shape, or several identical ones, broadcast to that shape unchanged |
| Shapes.BroadcastCommutes | pwkit/mathlib.py:69-77 | the broadcast of two shapes does not depend on their order |
| Shapes.BroadcastAssociates | pwkit/mathlib.py:56-79 | if two shapes clash, adding a third still clashes; otherwise broadcasting their broadcast with a third equals broadcasting all three |
| Shapes.BroadcastExampleRows | pwkit/mathlib.py:56-79 | `(2, 3)` with `(3,)` broadcasts to `(2, 3)` |
| Shapes.BroadcastExampleStretch | pwkit/mathlib.py:56-79 | `(1,)` with `(5,)` broadcasts to `(5,)` |
| Shapes.BroadcastExampleMismatch | pwkit/mathlib.py:56-79 | `(2,)` with `(3,)` is a shape mismatch |
| Registry.IndexByNameSpec | pwkit/mathlib.py:167-252 | building the dictionary from the entry list gives a key for exactly the names that occur, each mapped to the last entry with that name |
| Registry.RegistryKeysAreNames | pwkit/mathlib.py:167-252 | every entry of `common_interface_functions` is stored under its own name |
| Resolution.GetLibraryFor | pwkit/mathlib.py:425-463 | the fast path and the for/else search loop return exactly the declarative `LibraryFor(objects)` |
| Resolution.FirstQualifyingSpec | pwkit/mathlib.py:446-458 | the search from position `from` returns `lib` iff some operand at or after `from` advertises `lib`, `lib` accepts every operand, and no earlier such operand qualifies; it fails iff none qualifies |
| Resolution.LibraryForSpec | pwkit/mathlib.py:443-463 | `get_library_for` returns numpy when every operand is a numpy type; otherwise it returns the first advertised library accepting all operands, and fails with ValueError iff there is none (both directions) |
| Resolution.ResolvedLibraryAcceptsAll | pwkit/mathlib.py:446-458 | a resolved library accepts every operand |
| Resolution.FastPathIgnoresAttributes | pwkit/mathlib.py:443-444 | for all-numpy operands the result is numpy whatever libraries the operands advertise |
| Resolution.LibraryForWithRepeat | pwkit/mathlib.py:446-458 | appending a copy of an operand (as when `out` is one of the inputs) does not change the library chosen |
| Resolution.WrappersResolveToTestLibrary | pwkit/mathlib.py:807-809 | any mix of TestArrayWrappers and numpy values that holds at least one wrapper resolves to the test library |
| Resolution.ResolutionDependsOnOrder | pwkit/mathlib.py:446-458 | with two operands whose libraries accept both, the one listed first wins |
| Resolution.DispatchStdUnary | pwkit/mathlib.py:466-472 | resolution runs over `x` and, when given, `out`; the call passes `name`, `x` and `out` through unchanged to a library that accepts them, and fails exactly when resolution fails |
| Resolution.DispatchStdBinary | pwkit/mathlib.py:475-481 | as for unary, over `x`, `y` and `out` |
| Resolution.DispatchOther1 | pwkit/mathlib.py:484-486 | resolution runs over `x` alone: the library chosen accepts `x` and is the one `get_library_for(x)` returns |
| Resolution.DispatchInPlace | pwkit/mathlib.py:767-768 | `self op= other` calls the same binary operation with `other` as second operand and `self` as `out`, on the library `get_library_for(self, other)` returns, and fails exactly when that resolution fails |
| Resolution.InPlaceIsStdBinaryWithSelfAsOut | pwkit/mathlib.py:767-768 | the in-place call equals the free function `op(self, other, out=self)` |
| NdArrays.ArrayWrapper.constructor | pwkit/mathlib.py:839-840 | a wrapper holds the given shape, dtype and buffer |
| NdArrays.BroadcastData | pwkit/mathlib.py:819-820 | the broadcast data has one element per position of the target shape |
| NdArrays.BroadcastDataAt | pwkit/mathlib.py:819-820 | every element of the broadcast reads the source at its multi-index projected onto the source's shape: leading padded dimensions are dropped and size-1 dimensions are read at index 0 |
| NdArrays.BroadcastExampleRow | pwkit/mathlib.py:819-820 | a row of shape `(2,)` broadcast to `(3, 2)` repeats the row three times, in row-major order |
| NdArrays.BroadcastDataToSelf | pwkit/mathlib.py:588-591 | broadcasting to the array's own shape returns its data unchanged, so skipping `broadcast_to` when `xsh == bsh` changes no result |
| NdArrays.BroadcastScalar | pwkit/mathlib.py:819-820 | broadcasting a zero-dimensional value fills the target with that value |
| NdArrays.NegatedTwice | pwkit/mathlib.py:822-827 | applying `tidy_negative`'s element rule twice gives back the original data |
| Tidy.NewEmpty | pwkit/mathlib.py:811-812 | a fresh wrapper of the requested shape and dtype over a fresh buffer of matching size |
| Tidy.BroadcastTo | pwkit/mathlib.py:819-820 | a fresh wrapper of the target shape whose data is the broadcast of `x`'s data |
| Tidy.BroadcastUp | pwkit/mathlib.py:590-591 | an input brought to the broadcast shape holds its data broadcast to that shape, and is the input itself or a fresh array |
| Tidy.PrepareBinaryNoOut | pwkit/mathlib.py:603-623 | a failed broadcast raises ValueError. For a zero-dimensional broadcast the test provider fails on `reshape`. Otherwise both inputs hold their data broadcast to one shape, `(1,)` when the broadcast is `()`. The fresh output has the broadcast shape itself, `()` included, and its dtype is bool when the op has `bool_result`, otherwise `np.result_type` of the two input dtypes |
| Tidy.PrepareBinaryWithOut | pwkit/mathlib.py:624-642 | unless both inputs broadcast to `out`'s shape, ValueError is raised (shape mismatch or wrong `out` shape). Otherwise the arrays handed on share `out`'s buffer, all have `out`'s shape (or `(1,)` when `out` is zero-dimensional), and hold the inputs' data broadcast to it. The value returned is the caller's `out` |
| Tidy.TidyNegative | pwkit/mathlib.py:822-827 | every element of `out` becomes the negation of `x`'s element from before the call, even when `x` shares `out`'s buffer; a zero-dimensional `out` raises IndexError and nothing is written |
| Tidy.TidyAdd | pwkit/mathlib.py:829-835 | every element of `out` becomes the sum of the elements of `x` and `y` from before the call; a zero-dimensional `out` raises IndexError and nothing is written |
| Tidy.TidyStdUnary | pwkit/mathlib.py:545-594 | an `out` whose shape is not the broadcast raises ValueError before any write. Otherwise the caller's own `out` is returned, holding the negation of `x` broadcast to its shape. Without `out`, a fresh array of `x`'s shape is returned, of bool dtype when the op has `bool_result`, otherwise of `x`'s dtype. Without `out`, zero-dimensional input ends in the reshape error or the zero-dimensional `out` IndexError. Other op names raise NotImplementedError for `tidy_<op>`. Every error leaves `out` untouched |
| Tidy.TidyStdBinary | pwkit/mathlib.py:597-645 | as for unary, with the shape check over `x`, `y` and `out`. Without `out`, the result is a fresh array of the broadcast shape, of bool dtype when the op has `bool_result`, otherwise of `np.result_type` of the two input dtypes, holding the sum of both inputs broadcast to it. A broadcast failure raises ValueError |
| Tidy.NegateTwice | pwkit/mathlib.py:790-791 | `-(-x)` on a wrapper of one or more dimensions returns a fresh array with `x`'s shape, dtype and data; on a wrapped scalar (shape `()`) the test provider's missing `reshape` raises NotImplementedError |
| Tidy.InPlaceAddDispatch | pwkit/mathlib.py:767-768 | with two wrappers, `a += b` resolves to the test provider's `add`, called with `a` as `out` |
| Tidy.InPlaceAdd | pwkit/mathlib.py:767-770 | `a += b` on wrappers dispatches to the test library with `a` as `out`. When `b` broadcasts to `a`'s non-empty shape, `a` is returned holding its old data plus `b` broadcast. Otherwise the shape or reshape error is raised and `a` is unchanged |
| Cmask.AtLeast1D | pwkit/mathlib.py:374 | `atleast_1d` keeps the element count and gives `(1,)` for the shape `()` and leaves every non-empty shape unchanged |
| Cmask.Cmask | pwkit/mathlib.py:371-386 | the mask has `x`'s shape, `()` included; an element is true iff (not `welldefined` or not NaN) and (not `finite` or finite) |
| Cmask.KeepFlags | pwkit/mathlib.py:378-382 | with `finite` set, `welldefined` changes nothing, and both flags off keeps every element |

## Left out

- The numpy ufunc implementations installed on `NumpyFunctionLibrary`. Their results are floating-point numerics computed by a library that is not part of this model. Only the integer test provider computes values here.
- `np.result_type` is a function parameter of `Tidy.TidyStdBinary`, so dtype promotion stays uninterpreted.
- The adapters take the op's registry flags as a parameter rather than looking up `common_interface_functions[opname]`. The lookup in the 84-entry catalogue is defined, but it is not evaluated for a concrete name.
- `Tidy.TidyStdBinary`: with no `out` and a zero-dimensional broadcast, the source returns a shape-`()` view of the output only when the provider's `tidy_<op>` accepts a zero-dimensional `out`. `tidy_add` does not, so the model shows that path ending in IndexError.
- `Tidy.ReshapeView` models `reshape` only for a provider that implements it, as a view over the same buffer. The test provider's `reshape` is the not-implemented stub.
- `typeconvert` and `try_asarray`. The adapters receive TestArrayWrapper objects, for which `typeconvert` is the identity. Conversion of arbitrary Python objects is numpy's.
- The `partialmethod` / `_fill_*_library_type` / `_create_wrappers` wiring is reduced to its effect: the tidy adapters serve `std_unary`/`std_binary` ops, and other ops report `tidy_<op>` as not implemented. The rest of the operator table of `MathlibDelegatingObject` is left out; only the in-place "self is `out`" rule is kept.
- `Tidy.BroadcastTo` copies the broadcast data into a fresh buffer, where numpy returns a read-only view. The adapters only read the broadcast arrays, and `tidy_*` computes the right-hand side before writing into `out`, so no result differs.
- Element values are unbounded integers. int64 wrap-around and dtype casting on assignment into `out` are not modelled.
- The contents of `np.empty` are unspecified: the verifier treats a fresh buffer's elements as arbitrary.
- The `print` calls in the test provider, exception message texts, `**kwargs` passed through to the tidy functions, and the module aliases (`abs`, `mod`, ...).
- `pwkit/oo_helpers.py` and the `pwkit/environments` packages. They are Python descriptor plumbing and environment, filesystem and subprocess glue.
- Operands are abstract tags (`Resolution.Operand`): a type and an optional advertised library. `accepts` is the predicate each library class defines.
