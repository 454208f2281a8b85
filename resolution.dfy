/** Choosing the math function library for a set of operands (`get_library_for`), the
    standard dispatch wrappers, and the in-place operator rule. */
module Resolution {
  import opened Wrappers

  /** The Python type family of an operand. */
  datatype OperandType =
    | NumpyType              // an instance of numpy_types: scalars, numpy arrays, list, tuple
    | TestArrayWrapperType   // a TestArrayWrapper
    | OtherType(cls: nat)    // any other class, told apart by an id

  /** A math function library instance. */
  datatype Library =
    | NumpyLibrary
    | TestWrappedLibrary
    | OtherLibrary(id: nat, accepted: set<OperandType>)  // `accepts` holds for these types

  /** An operand and its `_pk_mathlib_library_` attribute (None when it is missing or None). */
  datatype Operand = Operand(ty: OperandType, advertised: Option<Library>)

  /** A TestArrayWrapper, which advertises the TestWrappedLibrary. */
  const WrapperOperand := Operand(TestArrayWrapperType, Some(TestWrappedLibrary))

  /** A plain numpy value, with no library attribute. */
  const PlainOperand := Operand(NumpyType, None)

  /** `isinstance(o, numpy_types)`. */
  predicate IsNumpyType(o: Operand)
  {
    o.ty == NumpyType
  }

  /** `lib.accepts(o)`. */
  predicate Accepts(lib: Library, o: Operand)
  {
    match lib
    case NumpyLibrary => o.ty == NumpyType
    case TestWrappedLibrary => o.ty == NumpyType || o.ty == TestArrayWrapperType
    case OtherLibrary(_, accepted) => o.ty in accepted
  }

  predicate AcceptsAll(lib: Library, objs: seq<Operand>)
  {
    forall k :: 0 <= k < |objs| ==> Accepts(lib, objs[k])
  }

  predicate AllNumpy(objs: seq<Operand>)
  {
    forall k :: 0 <= k < |objs| ==> IsNumpyType(objs[k])
  }

  /** Operand `k` advertises a library that accepts every operand. */
  predicate Qualifies(objs: seq<Operand>, k: nat)
    requires k < |objs|
  {
    objs[k].advertised.Some? && AcceptsAll(objs[k].advertised.value, objs)
  }

  /** The library advertised by the first qualifying operand at or after `from`. */
  function FirstQualifying(objs: seq<Operand>, from: nat): Result<Library, Error>
    requires from <= |objs|
    decreases |objs| - from
  {
    if from == |objs| then Failure(NoLibrary)
    else if Qualifies(objs, from) then Success(objs[from].advertised.value)
    else FirstQualifying(objs, from + 1)
  }

  /** The library `get_library_for(*objs)` returns, or its error. */
  function LibraryFor(objs: seq<Operand>): Result<Library, Error>
  {
    if AllNumpy(objs) then Success(NumpyLibrary) else FirstQualifying(objs, 0)
  }

  /** `get_library_for(*objects)`: the all-numpy fast path, then a scan over the operands'
      advertised libraries with a for/else that checks `accepts` on every operand. */
  method GetLibraryFor(objects: seq<Operand>) returns (r: Result<Library, Error>)
    ensures r == LibraryFor(objects)
  {
    if forall k :: 0 <= k < |objects| ==> IsNumpyType(objects[k]) {
      return Success(NumpyLibrary);
    }
    for i := 0 to |objects|
      invariant FirstQualifying(objects, i) == FirstQualifying(objects, 0)
    {
      var library := objects[i].advertised;
      if library.None? {
        continue;
      }
      var acceptsAll := true;
      for j := 0 to |objects|
        invariant acceptsAll
        invariant forall k :: 0 <= k < j ==> Accepts(library.value, objects[k])
      {
        if !Accepts(library.value, objects[j]) {
          acceptsAll := false;
          break;
        }
      }
      if acceptsAll {
        return Success(library.value);
      }
    }
    return Failure(NoLibrary);
  }

  // ---------------------------------------------------------------------------
  // What get_library_for returns

  /** The scan from `from` returns the library of the first qualifying operand at or after
      `from`, and fails exactly when none qualifies. */
  lemma {:induction false} FirstQualifyingSpec(objs: seq<Operand>, from: nat, lib: Library)
    requires from <= |objs|
    ensures FirstQualifying(objs, from) == Success(lib) <==>
      exists k :: from <= k < |objs| && Qualifies(objs, k) && objs[k].advertised.value == lib &&
        forall k' :: from <= k' < k ==> !Qualifies(objs, k')
    ensures FirstQualifying(objs, from) == Failure(NoLibrary) <==>
      forall k :: from <= k < |objs| ==> !Qualifies(objs, k)
    decreases |objs| - from
  {
    if from < |objs| {
      FirstQualifyingSpec(objs, from + 1, lib);
      if !Qualifies(objs, from) && FirstQualifying(objs, from) == Success(lib) {
        var k :| from + 1 <= k < |objs| && Qualifies(objs, k) && objs[k].advertised.value == lib &&
          forall k' :: from + 1 <= k' < k ==> !Qualifies(objs, k');
        assert forall k' :: from <= k' < k ==> !Qualifies(objs, k');
      }
    }
  }

  /** `get_library_for` returns the numpy library when every operand is a numpy type;
      otherwise the library advertised by the first operand whose library accepts every
      operand; and raises ValueError exactly when no advertised library accepts them all. */
  lemma LibraryForSpec(objs: seq<Operand>, lib: Library)
    ensures LibraryFor(objs) == Success(lib) <==>
      (AllNumpy(objs) && lib == NumpyLibrary) ||
      (!AllNumpy(objs) &&
        exists k :: 0 <= k < |objs| && Qualifies(objs, k) && objs[k].advertised.value == lib &&
          forall k' :: 0 <= k' < k ==> !Qualifies(objs, k'))
    ensures LibraryFor(objs) == Failure(NoLibrary) <==>
      !AllNumpy(objs) && forall k :: 0 <= k < |objs| ==> !Qualifies(objs, k)
  {
    FirstQualifyingSpec(objs, 0, lib);
  }

  /** Whatever library is chosen accepts every operand. */
  lemma ResolvedLibraryAcceptsAll(objs: seq<Operand>)
    requires LibraryFor(objs).Success?
    ensures AcceptsAll(LibraryFor(objs).value, objs)
  {
    var lib := LibraryFor(objs).value;
    LibraryForSpec(objs, lib);
  }

  /** The fast path: on all-numpy operands the numpy library is chosen whatever library
      attributes the operands carry, as none of them is looked at. */
  lemma FastPathIgnoresAttributes(objs: seq<Operand>, attrs: seq<Option<Library>>)
    requires AllNumpy(objs) && |attrs| == |objs|
    ensures LibraryFor(objs) == Success(NumpyLibrary)
    ensures LibraryFor(seq(|objs|, k requires 0 <= k < |objs| => Operand(objs[k].ty, attrs[k]))) == Success(NumpyLibrary)
  {
  }

  /** Listing an operand a second time (as the in-place operators do with `out`) does not
      change which library is chosen. */
  lemma {:induction false} FirstQualifyingWithRepeat(objs: seq<Operand>, kk: nat, from: nat)
    requires kk < |objs| && from <= |objs|
    requires from <= kk || !Qualifies(objs, kk)
    ensures FirstQualifying(objs + [objs[kk]], from) == FirstQualifying(objs, from)
    decreases |objs| - from
  {
    var more := objs + [objs[kk]];
    assert forall k :: 0 <= k < |objs| ==> more[k] == objs[k];
    assert more[|objs|] == objs[kk];
    forall lib ensures AcceptsAll(lib, more) <==> AcceptsAll(lib, objs) {
      if AcceptsAll(lib, objs) {
        assert Accepts(lib, more[|objs|]);
      }
    }
    if from < |objs| {
      assert more[from] == objs[from];
      assert Qualifies(more, from) <==> Qualifies(objs, from);
      if !Qualifies(objs, from) {
        FirstQualifyingWithRepeat(objs, kk, from + 1);
      }
    } else {
      assert more[from] == objs[kk];
      assert Qualifies(more, from) <==> Qualifies(objs, kk);
    }
  }

  lemma LibraryForWithRepeat(objs: seq<Operand>, kk: nat)
    requires kk < |objs|
    ensures LibraryFor(objs + [objs[kk]]) == LibraryFor(objs)
  {
    var more := objs + [objs[kk]];
    assert AllNumpy(more) <==> AllNumpy(objs) by {
      assert forall k :: 0 <= k < |objs| ==> more[k] == objs[k];
      assert more[|objs|] == objs[kk];
    }
    FirstQualifyingWithRepeat(objs, kk, 0);
  }

  /** Operands that are TestArrayWrappers or plain numpy values, with at least one wrapper,
      resolve to the TestWrappedLibrary. */
  lemma WrappersResolveToTestLibrary(objs: seq<Operand>)
    requires forall k :: 0 <= k < |objs| ==> objs[k] == WrapperOperand || objs[k] == PlainOperand
    requires exists k :: 0 <= k < |objs| && objs[k] == WrapperOperand
    ensures LibraryFor(objs) == Success(TestWrappedLibrary)
  {
    var w :| 0 <= w < |objs| && objs[w] == WrapperOperand;
    assert !IsNumpyType(objs[w]);
    FirstQualifyingAfterPlain(objs, 0, w);
  }

  /** Helper: scanning from `from`, plain numpy operands are skipped up to a wrapper. */
  lemma {:induction false} FirstQualifyingAfterPlain(objs: seq<Operand>, from: nat, w: nat)
    requires forall k :: 0 <= k < |objs| ==> objs[k] == WrapperOperand || objs[k] == PlainOperand
    requires from <= w < |objs| && objs[w] == WrapperOperand
    ensures FirstQualifying(objs, from) == Success(TestWrappedLibrary)
    decreases w - from
  {
    assert AcceptsAll(TestWrappedLibrary, objs);
    if objs[from] == PlainOperand {
      FirstQualifyingAfterPlain(objs, from + 1, w);
    }
  }

  /** First-found wins: two operands whose libraries both accept both operands resolve to
      whichever library is listed first, so the choice depends on operand order. */
  lemma ResolutionDependsOnOrder()
    ensures
      var libA := OtherLibrary(1, {OtherType(1), OtherType(2)});
      var libB := OtherLibrary(2, {OtherType(1), OtherType(2)});
      var a := Operand(OtherType(1), Some(libA));
      var b := Operand(OtherType(2), Some(libB));
      LibraryFor([a, b]) == Success(libA) && LibraryFor([b, a]) == Success(libB)
  {
    var libA := OtherLibrary(1, {OtherType(1), OtherType(2)});
    var libB := OtherLibrary(2, {OtherType(1), OtherType(2)});
    var a := Operand(OtherType(1), Some(libA));
    var b := Operand(OtherType(2), Some(libB));
    assert !IsNumpyType([a, b][0]) && !IsNumpyType([b, a][0]);
    assert Qualifies([a, b], 0) && Qualifies([b, a], 0);
  }

  // ---------------------------------------------------------------------------
  // Dispatch

  /** A call on a library method, with the arguments the wrapper passes on. */
  datatype Call =
    | StdUnaryCall(library: Library, name: string, x: Operand, out: Option<Operand>)
    | StdBinaryCall(library: Library, name: string, x: Operand, y: Operand, out: Option<Operand>)
    | Other1Call(library: Library, name: string, x: Operand)

  /** The inputs followed by `out` when one is given. */
  function WithOut(inputs: seq<Operand>, out: Option<Operand>): seq<Operand>
  {
    if out.Some? then inputs + [out.value] else inputs
  }

  /** `_dispatch_std_unary(name, x, out)`: resolve over `x` and `out`, then call the
      library's `name` with the arguments unchanged. */
  function DispatchStdUnary(name: string, x: Operand, out: Option<Operand>): (r: Result<Call, Error>)
    ensures r.Success? ==> r.value.StdUnaryCall? && r.value.name == name && r.value.x == x && r.value.out == out
    ensures r.Success? ==> Accepts(r.value.library, x) && (out.Some? ==> Accepts(r.value.library, out.value))
    ensures r.Failure? <==> LibraryFor(WithOut([x], out)).Failure?
    ensures r.Success? ==> LibraryFor(WithOut([x], out)) == Success(r.value.library)
  {
    var objs := if out.None? then [x] else [x, out.value];
    assert objs == WithOut([x], out);
    var lib :- LibraryFor(objs);
    ResolvedLibraryAcceptsAll(objs);
    assert objs[0] == x && (out.Some? ==> objs[1] == out.value);
    Success(StdUnaryCall(lib, name, x, out))
  }

  /** `_dispatch_std_binary(name, x, y, out)`: resolve over `x`, `y` and `out`, then call
      the library's `name` with the arguments unchanged. */
  function DispatchStdBinary(name: string, x: Operand, y: Operand, out: Option<Operand>): (r: Result<Call, Error>)
    ensures r.Success? ==> r.value.StdBinaryCall? && r.value.name == name && r.value.x == x && r.value.y == y && r.value.out == out
    ensures r.Success? ==>
      Accepts(r.value.library, x) && Accepts(r.value.library, y) && (out.Some? ==> Accepts(r.value.library, out.value))
    ensures r.Failure? <==> LibraryFor(WithOut([x, y], out)).Failure?
    ensures r.Success? ==> LibraryFor(WithOut([x, y], out)) == Success(r.value.library)
  {
    var objs := if out.None? then [x, y] else [x, y, out.value];
    assert objs == WithOut([x, y], out);
    var lib :- LibraryFor(objs);
    ResolvedLibraryAcceptsAll(objs);
    assert objs[0] == x && objs[1] == y && (out.Some? ==> objs[2] == out.value);
    Success(StdBinaryCall(lib, name, x, y, out))
  }

  /** `_dispatch_other_1(name, x, ...)`: resolve over `x` alone; any further arguments
      are passed through untouched and are not modelled. */
  function DispatchOther1(name: string, x: Operand): (r: Result<Call, Error>)
    ensures r.Success? ==> r.value.Other1Call? && r.value.name == name && r.value.x == x && Accepts(r.value.library, x)
    ensures r.Success? ==> LibraryFor([x]) == Success(r.value.library)
    ensures r.Failure? <==> LibraryFor([x]).Failure?
  {
    var lib :- LibraryFor([x]);
    ResolvedLibraryAcceptsAll([x]);
    assert [x][0] == x;
    Success(Other1Call(lib, name, x))
  }

  /** `MathlibDelegatingObject.__dispatch_binary_inplace`: `self op= other` resolves over
      (self, other) and calls the operation with `self` as `out`. */
  function DispatchInPlace(name: string, self: Operand, other: Operand): (r: Result<Call, Error>)
    ensures r.Success? ==> r.value.StdBinaryCall? && r.value.x == self && r.value.y == other && r.value.out == Some(self)
    ensures r.Success? ==> r.value.name == name && LibraryFor([self, other]) == Success(r.value.library)
    ensures r.Failure? <==> LibraryFor([self, other]).Failure?
  {
    var lib :- LibraryFor([self, other]);
    Success(StdBinaryCall(lib, name, self, other, Some(self)))
  }

  /** `self op= other` makes the same call as the free function `op(self, other, out=self)`. */
  lemma InPlaceIsStdBinaryWithSelfAsOut(name: string, self: Operand, other: Operand)
    ensures DispatchInPlace(name, self, other) == DispatchStdBinary(name, self, other, Some(self))
  {
    LibraryForWithRepeat([self, other], 0);
    assert [self, other] + [[self, other][0]] == [self, other, self];
  }
}
