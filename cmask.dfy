/** `NumpyFunctionLibrary.cmask`: the boolean mask of the elements of an array that are
    well-defined (not NaN) and/or finite. */
module Cmask {
  import opened Shapes

  /** A floating-point element, as far as `isnan` and `isfinite` tell them apart. */
  datatype Float = Number(r: real) | PosInf | NegInf | NaN

  predicate IsNan(v: Float)
  {
    v.NaN?
  }

  predicate IsFinite(v: Float)
  {
    v.Number?
  }

  /** An array as `np.asarray` sees it: a shape and its row-major elements. */
  datatype Values = Values(shape: Shape, data: seq<Float>)

  /** A boolean array: a shape and its row-major elements. */
  datatype Mask = Mask(shape: Shape, bits: seq<bool>)

  /** `np.atleast_1d` on a shape. */
  function AtLeast1D(s: Shape): (r: Shape)
    ensures Product(r) == Product(s)
    ensures r != [] && (s != [] ==> r == s)
    ensures |r| == (if s == [] then 1 else |s|)
  {
    if s == [] then [1] else s
  }

  /** Whether `cmask` keeps an element. */
  predicate Keep(v: Float, welldefined: bool, finite: bool)
  {
    (!welldefined || !IsNan(v)) && (!finite || IsFinite(v))
  }

  /** `cmask(x, welldefined, finite)`: start from all-true and clear, in place, the NaN
      elements when `welldefined` and the non-finite ones when `finite`. The mask has the
      shape of `x`, `()` included. */
  method Cmask(x: Values, welldefined: bool, finite: bool) returns (r: Mask)
    requires |x.data| == Product(x.shape)
    ensures r.shape == x.shape && |r.bits| == |x.data|
    ensures forall k :: 0 <= k < |x.data| ==> (r.bits[k] <==> Keep(x.data[k], welldefined, finite))
  {
    var zerod := x.shape == [];
    var shape := AtLeast1D(x.shape);
    var n := |x.data|;
    var out := new bool[n](_ => true);
    if welldefined {
      for k := 0 to n
        invariant forall i :: 0 <= i < k ==> out[i] == !IsNan(x.data[i])
        invariant forall i :: k <= i < n ==> out[i]
      {
        out[k] := out[k] && !IsNan(x.data[k]);
      }
    }
    if finite {
      for k := 0 to n
        invariant forall i :: 0 <= i < k ==> out[i] == (Keep(x.data[i], welldefined, false) && IsFinite(x.data[i]))
        invariant forall i :: k <= i < n ==> out[i] == Keep(x.data[i], welldefined, false)
      {
        out[k] := out[k] && IsFinite(x.data[k]);
      }
    }
    if zerod {
      return Mask([], out[..]);
    }
    return Mask(shape, out[..]);
  }

  /** A finite element is never NaN, so asking for `finite` makes `welldefined` redundant;
      asking for neither keeps everything. */
  lemma KeepFlags(v: Float, welldefined: bool)
    ensures Keep(v, welldefined, true) == Keep(v, false, true) == IsFinite(v)
    ensures Keep(v, false, false)
  {
  }
}
