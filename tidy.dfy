/** The "tidied" function library and its test provider: `_tidy_std_unary` and
    `_tidy_std_binary` hand a provider's `tidy_<op>` arrays of one common, at-least-1-D
    shape; the test provider (TestWrappedLibrary) implements `tidy_negative` and
    `tidy_add` by writing into the output buffer. */
module Tidy {
  import opened Wrappers
  import opened Shapes
  import opened Registry
  import opened NdArrays
  import Resolution

  /** A TidiedFunctionLibrary subclass. The test provider inherits `reshape` from the
      base library, where it is not implemented; another provider may implement it as a
      view. Its tidy operations are `tidy_negative` and `tidy_add`. */
  datatype Provider = Provider(implementsReshape: bool)

  const TestWrapped := Provider(false)

  /** `new_empty(shape, dtype)`: a fresh wrapper over an uninitialised buffer. */
  method NewEmpty(shape: Shape, dtype: DType) returns (a: ArrayWrapper)
    ensures fresh(a) && fresh(a.data) && a.Valid()
    ensures a.shape == shape && a.dtype == dtype
  {
    var buf := new int[Product(shape)];
    a := new ArrayWrapper(shape, dtype, buf);
  }

  /** `reshape(a, shape)` for a provider that implements it: a new wrapper over the same
      buffer. */
  method ReshapeView(a: ArrayWrapper, shape: Shape) returns (v: ArrayWrapper)
    requires a.Valid() && Product(shape) == Product(a.shape)
    ensures fresh(v) && v.Valid()
    ensures v.data == a.data && v.shape == shape && v.dtype == a.dtype
  {
    v := new ArrayWrapper(shape, a.dtype, a.data);
  }

  /** `broadcast_to(x, shape)`: a wrapper whose data is `x` broadcast to `shape`. It is
      only ever read, so a copy stands for numpy's read-only view. */
  method BroadcastTo(x: ArrayWrapper, shape: Shape) returns (b: ArrayWrapper)
    requires x.Valid() && BroadcastsTo(x.shape, shape)
    ensures fresh(b) && fresh(b.data) && b.Valid()
    ensures b.shape == shape && b.dtype == x.dtype
    ensures b.data[..] == BroadcastData(x.data[..], x.shape, shape)
  {
    var d := BroadcastData(x.data[..], x.shape, shape);
    var buf := new int[|d|](k => if 0 <= k < |d| then d[k] else 0);
    b := new ArrayWrapper(shape, x.dtype, buf);
  }

  /** `if xsh != bsh: x = broadcast_to(x, bsh)`: an input brought up to the broadcast
      shape, unchanged when it already has it. */
  method BroadcastUp(x: ArrayWrapper, bsh: Shape) returns (t: ArrayWrapper)
    requires x.Valid() && BroadcastsTo(x.shape, bsh)
    ensures t.Valid() && t.shape == bsh && t.dtype == x.dtype
    ensures t.data[..] == BroadcastData(x.data[..], x.shape, bsh)
    ensures t == x || fresh(t.data)
  {
    t := x;
    if x.shape != bsh {
      t := BroadcastTo(x, bsh);
    } else {
      BroadcastDataToSelf(x.data[..], x.shape);
    }
  }

  /** `tidy_negative(x, out)`: `out.data[:] = -x.data`. The negation is computed before
      anything is written, so `x` may share its buffer with `out`. Slicing a
      zero-dimensional `out` raises IndexError before any write. */
  method TidyNegative(x: ArrayWrapper, out: ArrayWrapper) returns (r: Outcome<Error>)
    requires x.Valid() && out.Valid()
    requires out.shape == [] || x.shape == out.shape
    modifies out.data
    ensures out.shape == [] ==> r == Fail(ZeroDimIndex) && out.data[..] == old(out.data[..])
    ensures out.shape != [] ==> r == Pass && out.data[..] == Negated(old(x.data[..]))
  {
    if out.shape == [] {
      return Fail(ZeroDimIndex);
    }
    var v := Negated(x.data[..]);
    for k := 0 to out.data.Length
      invariant forall i :: 0 <= i < k ==> out.data[i] == v[i]
    {
      out.data[k] := v[k];
    }
    return Pass;
  }

  /** `tidy_add(x, y, out)`: `out.data[:] = x.data + y.data`, the sum computed before
      anything is written. */
  method TidyAdd(x: ArrayWrapper, y: ArrayWrapper, out: ArrayWrapper) returns (r: Outcome<Error>)
    requires x.Valid() && y.Valid() && out.Valid()
    requires out.shape == [] || (x.shape == out.shape && y.shape == out.shape)
    modifies out.data
    ensures out.shape == [] ==> r == Fail(ZeroDimIndex) && out.data[..] == old(out.data[..])
    ensures out.shape != [] ==> r == Pass && out.data[..] == Sum(old(x.data[..]), old(y.data[..]))
  {
    if out.shape == [] {
      return Fail(ZeroDimIndex);
    }
    var v := Sum(x.data[..], y.data[..]);
    for k := 0 to out.data.Length
      invariant forall i :: 0 <= i < k ==> out.data[i] == v[i]
    {
      out.data[k] := v[k];
    }
    return Pass;
  }

  /** The error `getattr(self, 'tidy_' + opname)(...)` raises before doing anything:
      none for the operations the provider implements. */
  function TidyMissing(opname: string, implemented: string): Option<Error>
  {
    if opname == implemented then None else Some(NotImplemented("tidy_" + opname))
  }

  /** `_tidy_std_unary(opname, x, out)` with `flags` the registry flags of `opname`. */
  method TidyStdUnary(p: Provider, opname: string, flags: Flags, x: ArrayWrapper, out: ArrayWrapper?)
    returns (r: Result<ArrayWrapper, Error>)
    requires x.Valid() && (out != null ==> out.Valid())
    modifies if out == null then {} else {out.data}
    // Without `out`: a fresh array of x's shape, of boolean type for a predicate.
    ensures out == null && x.shape != [] ==>
      (if opname != "negative" then r == Failure(NotImplemented("tidy_" + opname))
       else (r.Success? && fresh(r.value) && fresh(r.value.data) && r.value.shape == x.shape &&
         r.value.dtype == (if HasFlag(flags, BoolResult) then Bool else x.dtype) &&
         r.value.data[..] == Negated(x.data[..])))
    // A zero-dimensional `x` without `out`: the output stays zero-dimensional.
    ensures out == null && x.shape == [] ==>
      r == Failure(if !p.implementsReshape then NotImplemented("reshape")
                   else if opname != "negative" then NotImplemented("tidy_" + opname)
                   else ZeroDimIndex)
    // With `out`: `x` must broadcast to out's shape.
    ensures out != null && !BroadcastsTo(x.shape, out.shape) ==>
      r == Failure(if Broadcast([x.shape, out.shape]).Failure? then ShapeMismatch else OutShapeMismatch)
    ensures out != null && BroadcastsTo(x.shape, out.shape) ==>
      if out.shape == [] && !p.implementsReshape then r == Failure(NotImplemented("reshape"))
      else if opname != "negative" then r == Failure(NotImplemented("tidy_" + opname))
      else r == Success(out) && out.data[..] == Negated(BroadcastData(old(x.data[..]), x.shape, out.shape))
    // Every error is raised before anything is written.
    ensures out != null && r.Failure? ==> out.data[..] == old(out.data[..])
  {
    var xsh := x.shape;
    var tx: ArrayWrapper, tout: ArrayWrapper, retval: ArrayWrapper;
    if out == null {
      var zerod := xsh == [];
      tx := x;
      if zerod {
        if !p.implementsReshape {
          return Failure(NotImplemented("reshape"));
        }
        tx := ReshapeView(x, [1]);
      }
      var outDtype := if HasFlag(flags, BoolResult) then Bool else tx.dtype;
      tout := NewEmpty(xsh, outDtype);
      retval := tout;
      if zerod {
        retval := ReshapeView(tout, []);
      }
    } else {
      retval := out;
      var osh := out.shape;
      OutCheckUnary(xsh, osh);
      var bsh :- BroadcastShapes([xsh, osh]);
      if osh != bsh {
        return Failure(OutShapeMismatch);
      }
      var zerod := bsh == [];
      tx, tout := x, out;
      if zerod {
        if !p.implementsReshape {
          return Failure(NotImplemented("reshape"));
        }
        tx := ReshapeView(x, [1]);
        tout := ReshapeView(out, [1]);
      } else {
        tx := BroadcastUp(x, bsh);
      }
    }
    var missing := TidyMissing(opname, "negative");
    if missing.Some? {
      return Failure(missing.value);
    }
    var outcome := TidyNegative(tx, tout);
    if outcome.Fail? {
      return Failure(outcome.error);
    }
    return Success(retval);
  }

  /** The arrays a binary adapter hands to `tidy_<op>`, and the value it returns. */
  datatype Tidied = Tidied(x: ArrayWrapper, y: ArrayWrapper, out: ArrayWrapper, retval: ArrayWrapper)

  /** The no-`out` branch of `_tidy_std_binary`: broadcast the shapes, bring both inputs
      to the broadcast shape (to `(1,)` when it is `()`), and allocate the output with the
      broadcast shape itself, `()` included. */
  method PrepareBinaryNoOut(p: Provider, flags: Flags, resultType: (DType, DType) -> DType,
                            x: ArrayWrapper, y: ArrayWrapper)
    returns (r: Result<Tidied, Error>)
    requires x.Valid() && y.Valid()
    ensures
      match Broadcast([x.shape, y.shape])
      case Failure(_) => r == Failure(ShapeMismatch)
      case Success(b) =>
        if b == [] && !p.implementsReshape then r == Failure(NotImplemented("reshape"))
        else (r.Success? && BroadcastsTo(x.shape, b) && BroadcastsTo(y.shape, b) &&
          var t := r.value;
          fresh(t.out) && fresh(t.out.data) && fresh(t.retval) && t.out.Valid() && t.out.shape == b &&
          t.out.dtype == (if HasFlag(flags, BoolResult) then Bool else resultType(x.dtype, y.dtype)) &&
          t.retval.Valid() && t.retval.data == t.out.data && t.retval.shape == b && t.retval.dtype == t.out.dtype &&
          t.x.Valid() && t.y.Valid() && t.x.shape == t.y.shape == (if b == [] then [1] else b) &&
          t.x.data[..] == BroadcastData(x.data[..], x.shape, b) &&
          t.y.data[..] == BroadcastData(y.data[..], y.shape, b))
  {
    var xsh, ysh := x.shape, y.shape;
    var bsh :- BroadcastShapes([xsh, ysh]);
    BroadcastCoversInputs([xsh, ysh], bsh);
    assert BroadcastsTo(xsh, bsh) && BroadcastsTo(ysh, bsh) by {
      assert [xsh, ysh][0] == xsh && [xsh, ysh][1] == ysh;
    }
    var zerod := bsh == [];
    var tx, ty;
    if zerod {
      if !p.implementsReshape {
        return Failure(NotImplemented("reshape"));
      }
      tx := ReshapeView(x, [1]);
      ty := ReshapeView(y, [1]);
    } else {
      tx := BroadcastUp(x, bsh);
      ty := BroadcastUp(y, bsh);
    }
    var outDtype := if HasFlag(flags, BoolResult) then Bool else resultType(tx.dtype, ty.dtype);
    var out := NewEmpty(bsh, outDtype);
    var retval := out;
    if zerod {
      retval := ReshapeView(out, []);
    }
    return Success(Tidied(tx, ty, out, retval));
  }

  /** The `out` branch of `_tidy_std_binary`: `out` must already have the broadcast shape
      of all three; then inputs and `out` are brought to that shape (to `(1,)` when it is
      `()`), and the caller's `out` is what will be returned. */
  method PrepareBinaryWithOut(p: Provider, x: ArrayWrapper, y: ArrayWrapper, out: ArrayWrapper)
    returns (r: Result<Tidied, Error>)
    requires x.Valid() && y.Valid() && out.Valid()
    ensures !(BroadcastsTo(x.shape, out.shape) && BroadcastsTo(y.shape, out.shape)) ==>
      r == Failure(if Broadcast([x.shape, y.shape, out.shape]).Failure? then ShapeMismatch else OutShapeMismatch)
    ensures BroadcastsTo(x.shape, out.shape) && BroadcastsTo(y.shape, out.shape) ==>
      if out.shape == [] && !p.implementsReshape then r == Failure(NotImplemented("reshape"))
      else (r.Success? &&
        var t := r.value;
        t.retval == out && t.out.data == out.data && t.out.Valid() &&
        t.out.shape == (if out.shape == [] then [1] else out.shape) &&
        t.x.Valid() && t.y.Valid() && t.x.shape == t.out.shape && t.y.shape == t.out.shape &&
        t.x.data[..] == BroadcastData(x.data[..], x.shape, out.shape) &&
        t.y.data[..] == BroadcastData(y.data[..], y.shape, out.shape))
  {
    var xsh, ysh, osh := x.shape, y.shape, out.shape;
    OutCheckBinary(xsh, ysh, osh);
    var bsh :- BroadcastShapes([xsh, ysh, osh]);
    if osh != bsh {
      return Failure(OutShapeMismatch);
    }
    var zerod := bsh == [];
    var tx, ty, tout;
    if zerod {
      if !p.implementsReshape {
        return Failure(NotImplemented("reshape"));
      }
      tx := ReshapeView(x, [1]);
      ty := ReshapeView(y, [1]);
      tout := ReshapeView(out, [1]);
    } else {
      tx := BroadcastUp(x, bsh);
      ty := BroadcastUp(y, bsh);
      tout := out;
    }
    return Success(Tidied(tx, ty, tout, out));
  }

  /** `_tidy_std_binary(opname, x, y, out)` with `flags` the registry flags of `opname`
      and `resultType` numpy's type promotion (`np.result_type`). */
  method TidyStdBinary(p: Provider, opname: string, flags: Flags, resultType: (DType, DType) -> DType,
                       x: ArrayWrapper, y: ArrayWrapper, out: ArrayWrapper?)
    returns (r: Result<ArrayWrapper, Error>)
    requires x.Valid() && y.Valid() && (out != null ==> out.Valid())
    modifies if out == null then {} else {out.data}
    // Without `out`: the operands are broadcast together into a fresh array.
    ensures out == null ==>
      match Broadcast([x.shape, y.shape])
      case Failure(_) => r == Failure(ShapeMismatch)
      case Success(b) =>
        if b == [] then
          r == Failure(if !p.implementsReshape then NotImplemented("reshape")
                       else if opname != "add" then NotImplemented("tidy_" + opname)
                       else ZeroDimIndex)
        else if opname != "add" then r == Failure(NotImplemented("tidy_" + opname))
        else (r.Success? && fresh(r.value) && fresh(r.value.data) && r.value.shape == b &&
          r.value.dtype == (if HasFlag(flags, BoolResult) then Bool else resultType(x.dtype, y.dtype)) &&
          BroadcastsTo(x.shape, b) && BroadcastsTo(y.shape, b) &&
          r.value.data[..] == Sum(BroadcastData(x.data[..], x.shape, b), BroadcastData(y.data[..], y.shape, b)))
    // With `out`: both operands must broadcast to out's shape.
    ensures out != null && !(BroadcastsTo(x.shape, out.shape) && BroadcastsTo(y.shape, out.shape)) ==>
      r == Failure(if Broadcast([x.shape, y.shape, out.shape]).Failure? then ShapeMismatch else OutShapeMismatch)
    ensures out != null && BroadcastsTo(x.shape, out.shape) && BroadcastsTo(y.shape, out.shape) ==>
      if out.shape == [] && !p.implementsReshape then r == Failure(NotImplemented("reshape"))
      else if opname != "add" then r == Failure(NotImplemented("tidy_" + opname))
      else (r == Success(out) &&
        out.data[..] == Sum(BroadcastData(old(x.data[..]), x.shape, out.shape),
                            BroadcastData(old(y.data[..]), y.shape, out.shape)))
    // Every error is raised before anything is written.
    ensures out != null && r.Failure? ==> out.data[..] == old(out.data[..])
  {
    var prepared;
    if out == null {
      prepared := PrepareBinaryNoOut(p, flags, resultType, x, y);
    } else {
      prepared := PrepareBinaryWithOut(p, x, y, out);
    }
    if prepared.Failure? {
      return Failure(prepared.error);
    }
    var t := prepared.value;
    var missing := TidyMissing(opname, "add");
    if missing.Some? {
      return Failure(missing.value);
    }
    var outcome := TidyAdd(t.x, t.y, t.out);
    if outcome.Fail? {
      return Failure(outcome.error);
    }
    return Success(t.retval);
  }

  /** `-(-x)` for a TestArrayWrapper: `__neg__` calls the wrapper's own library's
      `negative`, twice. An array of one or more dimensions comes back with its data; a
      wrapped scalar (shape `()`) fails on the test provider's `reshape`. */
  method NegateTwice(x: ArrayWrapper) returns (r: Result<ArrayWrapper, Error>)
    requires x.Valid()
    ensures x.shape != [] ==>
      r.Success? && fresh(r.value) && r.value.shape == x.shape && r.value.dtype == x.dtype &&
      r.value.data[..] == x.data[..]
    ensures x.shape == [] ==> r == Failure(NotImplemented("reshape"))
  {
    var once := TidyStdUnary(TestWrapped, "negative", HasNumpyImpl, x, null);
    if once.Failure? {
      return once;
    }
    var y := once.value;
    r := TidyStdUnary(TestWrapped, "negative", HasNumpyImpl, y, null);
    NegatedTwice(x.data[..]);
  }

  /** `a += b` with two TestArrayWrappers resolves to the test provider's `add`, with `a`
      as `out`: both operands advertise it. */
  lemma InPlaceAddDispatch()
    ensures Resolution.DispatchInPlace("add", Resolution.WrapperOperand, Resolution.WrapperOperand) ==
      Success(Resolution.StdBinaryCall(Resolution.TestWrappedLibrary, "add",
        Resolution.WrapperOperand, Resolution.WrapperOperand, Some(Resolution.WrapperOperand)))
  {
    var objs := [Resolution.WrapperOperand, Resolution.WrapperOperand];
    assert objs[0] == Resolution.WrapperOperand && objs[1] == Resolution.WrapperOperand;
    Resolution.WrappersResolveToTestLibrary(objs);
  }

  /** `a += b` for two TestArrayWrappers: the call the in-place dispatch makes, which is
      the test provider's `add(a, b, a)`. */
  method InPlaceAdd(resultType: (DType, DType) -> DType, a: ArrayWrapper, b: ArrayWrapper)
    returns (r: Result<ArrayWrapper, Error>)
    requires a.Valid() && b.Valid()
    modifies a.data
    ensures BroadcastsTo(b.shape, a.shape) && a.shape != [] ==>
      r == Success(a) &&
      a.data[..] == Sum(old(a.data[..]), BroadcastData(old(b.data[..]), b.shape, a.shape))
    ensures a.shape == [] && b.shape == [] ==> r == Failure(NotImplemented("reshape"))
    ensures !BroadcastsTo(b.shape, a.shape) ==>
      r == Failure(if Broadcast([a.shape, b.shape, a.shape]).Failure? then ShapeMismatch else OutShapeMismatch)
    ensures r.Failure? ==> a.data[..] == old(a.data[..])
  {
    var call := Resolution.DispatchInPlace("add", Resolution.WrapperOperand, Resolution.WrapperOperand);
    InPlaceAddDispatch();
    BroadcastDataToSelf(a.data[..], a.shape);
    r := TidyStdBinary(TestWrapped, call.value.name, HasNumpyImpl, resultType, a, b, a);
  }
}
