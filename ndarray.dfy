/** The array objects of the test provider: a TestArrayWrapper around a numpy array, held
    as a shape, a dtype and a flat row-major buffer; and what `np.broadcast_to` makes of
    such a buffer. */
module NdArrays {
  import opened Shapes

  /** Element types, as far as the adapter tells them apart. */
  datatype DType = Bool | Int | Float | Complex

  /** A TestArrayWrapper. Views made by `reshape` are new wrappers over the same buffer,
      so writes through one are seen through the other. */
  class ArrayWrapper {
    const shape: Shape
    const dtype: DType
    const data: array<int>

    constructor (shape: Shape, dtype: DType, data: array<int>)
      ensures this.shape == shape && this.dtype == dtype && this.data == data
    {
      this.shape := shape;
      this.dtype := dtype;
      this.data := data;
    }

    /** The buffer holds one element per position of the shape. */
    predicate Valid()
    {
      data.Length == Product(shape)
    }
  }

  /** `n` copies of `d`, one after the other. */
  function Repeat(d: seq<int>, n: nat): (r: seq<int>)
    ensures |r| == n * |d|
  {
    if n == 0 then [] else d + Repeat(d, n - 1)
  }

  /** A shape that broadcasts to `t` also broadcasts to the tail of `t` after its own
      leading dimension or padding is dropped. */
  lemma BroadcastsToTail(s: Shape, t: Shape)
    requires BroadcastsTo(s, t) && |t| > 0
    ensures |s| < |t| ==> BroadcastsTo(s, t[1..])
    ensures |s| == |t| ==> BroadcastsTo(s[1..], t[1..]) && (s[0] == 1 || s[0] == t[0])
  {
    var n := |t|;
    if |s| < n {
      forall j | 1 <= j < n
        ensures Pad(s, n - 1)[j - 1] == Pad(s, n)[j]
      {
        PadAt(s, n, j);
        PadAt(s, n - 1, j - 1);
      }
    } else {
      forall j | 1 <= j < n
        ensures Pad(s[1..], n - 1)[j - 1] == Pad(s, n)[j]
      {
        PadAt(s, n, j);
        PadAt(s[1..], n - 1, j - 1);
      }
      PadAt(s, n, 0);
    }
  }

  /** The row-major data of `np.broadcast_to(a, t)` for an array `a` of shape `s` with
      flat data `d`: a size-1 (or padded) dimension is repeated, a matching one is kept. */
  function BroadcastData(d: seq<int>, s: Shape, t: Shape): (r: seq<int>)
    requires BroadcastsTo(s, t) && |d| == Product(s)
    ensures |r| == Product(t)
    decreases |t|, 2
  {
    if |t| == 0 then d
    else
      BroadcastsToTail(s, t);
      if |s| < |t| then Repeat(BroadcastData(d, s, t[1..]), t[0])
      else if s[0] == 1 then Repeat(BroadcastData(d, s[1..], t[1..]), t[0])
      else
        TimesIsMul(s[0], Product(s[1..]));
        TimesIsMul(t[0], Product(t[1..]));
        Blocks(d, s[0], s[1..], t[1..])
  }

  /** The `n` consecutive blocks of `d` (each an array of shape `s`), each broadcast to
      `t` and laid end to end. */
  function Blocks(d: seq<int>, n: nat, s: Shape, t: Shape): (r: seq<int>)
    requires BroadcastsTo(s, t) && |d| == Times(n, Product(s))
    ensures |r| == Times(n, Product(t))
    decreases |t| + 1, 1
  {
    var out := BroadcastEach(Slices(d, n, Product(s)), s, t);
    ConcatLength(out, Product(t));
    Concat(out)
  }

  /** Each of `src` (arrays of shape `s`) broadcast to `t`. */
  function BroadcastEach(src: seq<seq<int>>, s: Shape, t: Shape): (r: seq<seq<int>>)
    requires BroadcastsTo(s, t) && forall j :: 0 <= j < |src| ==> |src[j]| == Product(s)
    ensures |r| == |src|
    ensures forall j :: 0 <= j < |r| ==> |r[j]| == Product(t) && r[j] == BroadcastData(src[j], s, t)
    decreases |t| + 1, 0
  {
    seq(|src|, j requires 0 <= j < |src| => BroadcastData(src[j], s, t))
  }

  /** `d` cut into `n` consecutive pieces of length `p`. */
  function Slices(d: seq<int>, n: nat, p: nat): (r: seq<seq<int>>)
    requires |d| == Times(n, p)
    ensures |r| == n && forall j :: 0 <= j < n ==> |r[j]| == p
  {
    if n == 0 then [] else [d[..p]] + Slices(d[p..], n - 1, p)
  }

  /** The pieces laid end to end. */
  function Concat(pieces: seq<seq<int>>): seq<int>
  {
    if |pieces| == 0 then [] else pieces[0] + Concat(pieces[1..])
  }

  // ---------------------------------------------------------------------------
  // Element by element: numpy's indexing rule for broadcast arrays

  /** The row-major multi-index of flat position `k` in an array of shape `t`. */
  function Digits(t: Shape, k: nat): (idx: seq<nat>)
    requires k < Product(t)
    ensures |idx| == |t| && forall j :: 0 <= j < |t| ==> idx[j] < t[j]
  {
    if |t| == 0 then []
    else
      var q := Product(t[1..]);
      DivBelow(k, t[0], q);
      var tail := Digits(t[1..], k % q);
      assert forall j :: 1 <= j < |t| ==> ([k / q] + tail)[j] == tail[j - 1];
      [k / q] + tail
  }

  /** The flat row-major position of multi-index `idx` in an array of shape `s`. */
  function Flat(s: Shape, idx: seq<nat>): (k: nat)
    requires |idx| == |s| && forall j :: 0 <= j < |s| ==> idx[j] < s[j]
    ensures k < Product(s)
  {
    if |s| == 0 then 0
    else
      var p := Product(s[1..]);
      var rest := Flat(s[1..], idx[1..]);
      assert idx[0] * p + rest < (idx[0] + 1) * p <= s[0] * p by {
        MulMono(idx[0] + 1, s[0], p);
      }
      idx[0] * p + rest
  }

  /** The element of the source read at target multi-index `idx`: the leading target
      dimensions that the source lacks are dropped, and a size-1 source dimension is
      read at 0. */
  function SourceIndex(s: Shape, t: Shape, idx: seq<nat>): (r: seq<nat>)
    requires BroadcastsTo(s, t)
    requires |idx| == |t| && forall j :: 0 <= j < |t| ==> idx[j] < t[j]
    ensures |r| == |s| && forall m :: 0 <= m < |s| ==> r[m] < s[m]
  {
    var off := |t| - |s|;
    forall m | 0 <= m < |s|
      ensures s[m] == 1 || s[m] == t[m + off]
    {
      PadAt(s, |t|, m + off);
    }
    seq(|s|, m requires 0 <= m < |s| => if s[m] == 1 then 0 else idx[m + off])
  }

  /** Every element of `np.broadcast_to(a, t)` is the element of `a` that numpy's rule
      selects: position `k` of the result reads the source at the multi-index of `k`
      projected onto `a`'s shape. */
  lemma {:induction false} BroadcastDataAt(d: seq<int>, s: Shape, t: Shape, k: nat)
    requires BroadcastsTo(s, t) && |d| == Product(s) && k < Product(t)
    ensures BroadcastData(d, s, t)[k] == d[Flat(s, SourceIndex(s, t, Digits(t, k)))]
    decreases |t|, 2
  {
    if |t| > 0 {
      BroadcastsToTail(s, t);
      if |s| < |t| {
        PaddedAt(d, s, t, k);
      } else if s[0] == 1 {
        StretchedAt(d, s, t, k);
      } else {
        KeptAt(d, s, t, k);
      }
    }
  }

  /** `BroadcastDataAt` for a target dimension the source lacks. */
  lemma {:induction false} PaddedAt(d: seq<int>, s: Shape, t: Shape, k: nat)
    requires BroadcastsTo(s, t) && |d| == Product(s) && k < Product(t)
    requires |s| < |t| && BroadcastsTo(s, t[1..])
    ensures BroadcastData(d, s, t)[k] == d[Flat(s, SourceIndex(s, t, Digits(t, k)))]
    decreases |t|, 1
  {
    var q := Product(t[1..]);
    DigitsHead(t, k);
    var e := BroadcastData(d, s, t[1..]);
    assert BroadcastData(d, s, t) == Repeat(e, t[0]);
    DivModTimes(k, q);
    RepeatAt(e, t[0], k / q, k % q);
    BroadcastDataAt(d, s, t[1..], k % q);
    SkipPadded(s, t, k / q, Digits(t[1..], k % q));
  }

  /** `BroadcastDataAt` for a size-1 source dimension stretched along the target. */
  lemma {:induction false} StretchedAt(d: seq<int>, s: Shape, t: Shape, k: nat)
    requires BroadcastsTo(s, t) && |d| == Product(s) && k < Product(t)
    requires |s| == |t| > 0 && s[0] == 1 && BroadcastsTo(s[1..], t[1..])
    ensures BroadcastData(d, s, t)[k] == d[Flat(s, SourceIndex(s, t, Digits(t, k)))]
    decreases |t|, 1
  {
    var q := Product(t[1..]);
    DigitsHead(t, k);
    var e := BroadcastData(d, s[1..], t[1..]);
    assert BroadcastData(d, s, t) == Repeat(e, t[0]);
    DivModTimes(k, q);
    RepeatAt(e, t[0], k / q, k % q);
    BroadcastDataAt(d, s[1..], t[1..], k % q);
    DropLeading(s, t, k / q, Digits(t[1..], k % q));
  }

  /** `BroadcastDataAt` for a source dimension the target keeps: the block is read whole. */
  lemma {:induction false} KeptAt(d: seq<int>, s: Shape, t: Shape, k: nat)
    requires BroadcastsTo(s, t) && |d| == Product(s) && k < Product(t)
    requires |s| == |t| > 0 && s[0] != 1 && s[0] == t[0] && BroadcastsTo(s[1..], t[1..])
    ensures BroadcastData(d, s, t)[k] == d[Flat(s, SourceIndex(s, t, Digits(t, k)))]
    decreases |t|, 1
  {
    var q := Product(t[1..]);
    DigitsHead(t, k);
    var i, tail := k / q, Digits(t[1..], k % q);
    var src := SourceIndex(s[1..], t[1..], tail);
    BlockRead(d, s, t, k);
    DropLeading(s, t, i, tail);
    FlatHead(s, i, src);
  }

  /** Position `k` of a kept dimension's broadcast reads block `k / q` of the source at
      the position its tail digits select. */
  lemma {:induction false} BlockRead(d: seq<int>, s: Shape, t: Shape, k: nat)
    requires BroadcastsTo(s, t) && |d| == Product(s) && k < Product(t)
    requires |s| == |t| > 0 && s[0] != 1 && s[0] == t[0] && BroadcastsTo(s[1..], t[1..])
    ensures
      var q, p := Product(t[1..]), Product(s[1..]);
      q > 0 && Times(k / q, p) + p <= |d| && k % q < q &&
      var src := Flat(s[1..], SourceIndex(s[1..], t[1..], Digits(t[1..], k % q)));
      BroadcastData(d, s, t)[k] == d[Times(k / q, p) + src]
    decreases |t|, 0
  {
    var q, p := Product(t[1..]), Product(s[1..]);
    DigitsHead(t, k);
    var i, rest := k / q, k % q;
    TimesIsMul(s[0], p);
    assert BroadcastData(d, s, t) == Blocks(d, s[0], s[1..], t[1..]);
    DivModTimes(k, q);
    BlocksAt(d, s[0], s[1..], t[1..], i, rest);
    SlicesAt(d, s[0], p, i);
    BroadcastDataAt(Slices(d, s[0], p)[i], s[1..], t[1..], rest);
  }

  /** The flat position of `[x] + tail` is `x` whole blocks plus the position of `tail`. */
  lemma FlatHead(s: Shape, x: nat, tail: seq<nat>)
    requires |s| > 0 && x < s[0] && |tail| == |s| - 1
    requires forall j :: 0 <= j < |s| - 1 ==> tail[j] < s[j + 1]
    ensures
      var idx := [x] + tail;
      (forall j :: 0 <= j < |s| ==> idx[j] < s[j]) &&
      Flat(s, idx) == Times(x, Product(s[1..])) + Flat(s[1..], tail)
  {
    TimesIsMul(x, Product(s[1..]));
    var idx := [x] + tail;
    assert idx[1..] == tail;
    assert forall j :: 1 <= j < |s| ==> idx[j] == tail[j - 1];
  }

  /** The leading digit of `k` in shape `t` and the digits of the rest. */
  lemma DigitsHead(t: Shape, k: nat)
    requires |t| > 0 && k < Product(t)
    ensures
      var q := Product(t[1..]);
      q > 0 && k / q < t[0] && k % q < q &&
      Digits(t, k) == [k / q] + Digits(t[1..], k % q)
  {
    DivBelow(k, t[0], Product(t[1..]));
  }

  /** `k` is `k / q` whole blocks of `q` plus the remainder. */
  lemma DivModTimes(k: nat, q: nat)
    requires q > 0
    ensures k == Times(k / q, q) + k % q
  {
    TimesIsMul(k / q, q);
  }

  /** A padded leading target dimension does not move the source index. */
  lemma SkipPadded(s: Shape, t: Shape, i: nat, tail: seq<nat>)
    requires BroadcastsTo(s, t) && |s| < |t| && BroadcastsTo(s, t[1..])
    requires i < t[0] && |tail| == |t| - 1 && forall j :: 0 <= j < |t| - 1 ==> tail[j] < t[j + 1]
    ensures
      var idx := [i] + tail;
      (forall j :: 0 <= j < |t| ==> idx[j] < t[j]) &&
      SourceIndex(s, t, idx) == SourceIndex(s, t[1..], tail)
  {
    var idx := [i] + tail;
    assert forall j :: 1 <= j < |t| ==> idx[j] == tail[j - 1];
  }

  /** A leading source dimension of size `t[0]` or 1 reads index `i` or 0 and leaves the
      rest of the source index to the tails. */
  lemma DropLeading(s: Shape, t: Shape, i: nat, tail: seq<nat>)
    requires BroadcastsTo(s, t) && |s| == |t| > 0 && BroadcastsTo(s[1..], t[1..])
    requires i < t[0] && |tail| == |t| - 1 && forall j :: 0 <= j < |t| - 1 ==> tail[j] < t[j + 1]
    ensures
      var idx := [i] + tail;
      (forall j :: 0 <= j < |t| ==> idx[j] < t[j]) &&
      SourceIndex(s, t, idx) == [if s[0] == 1 then 0 else i] + SourceIndex(s[1..], t[1..], tail)
  {
    var idx := [i] + tail;
    assert forall j :: 1 <= j < |t| ==> idx[j] == tail[j - 1];
  }

  /** `i * p`, counted up block by block. */
  function Times(i: nat, p: nat): nat
  {
    if i == 0 then 0 else Times(i - 1, p) + p
  }

  lemma {:induction false} TimesIsMul(i: nat, p: nat)
    ensures Times(i, p) == i * p
  {
    if i > 0 {
      TimesIsMul(i - 1, p);
      NextMultiple(i - 1, p);
    }
  }

  /** Position `r` of copy `i` of `n` copies of `e` is position `r` of `e`. */
  lemma {:induction false} RepeatAt(e: seq<int>, n: nat, i: nat, r: nat)
    requires i < n && r < |e|
    ensures Times(i, |e|) + r < n * |e| && Repeat(e, n)[Times(i, |e|) + r] == e[r]
    decreases i
  {
    MulSucc(n, |e|);
    assert Repeat(e, n) == e + Repeat(e, n - 1);
    if i > 0 {
      RepeatAt(e, n - 1, i - 1, r);
    }
  }

  /** Position `r` of block `i` of the broadcast blocks is position `r` of block `i` of
      the source, broadcast on its own. */
  lemma BlocksAt(d: seq<int>, n: nat, s: Shape, t: Shape, i: nat, r: nat)
    requires BroadcastsTo(s, t) && |d| == Times(n, Product(s)) && i < n && r < Product(t)
    ensures Times(i, Product(t)) + r < Times(n, Product(t))
    ensures Blocks(d, n, s, t)[Times(i, Product(t)) + r]
         == BroadcastData(Slices(d, n, Product(s))[i], s, t)[r]
  {
    EachAt(Slices(d, n, Product(s)), s, t, i, r);
  }

  /** Position `r` of piece `i` of the broadcast pieces. */
  lemma EachAt(src: seq<seq<int>>, s: Shape, t: Shape, i: nat, r: nat)
    requires BroadcastsTo(s, t) && forall j :: 0 <= j < |src| ==> |src[j]| == Product(s)
    requires i < |src| && r < Product(t)
    ensures Times(i, Product(t)) + r < Times(|src|, Product(t)) == |Concat(BroadcastEach(src, s, t))|
    ensures Concat(BroadcastEach(src, s, t))[Times(i, Product(t)) + r] == BroadcastData(src[i], s, t)[r]
  {
    ConcatAt(BroadcastEach(src, s, t), Product(t), i, r);
  }

  /** Piece `i` of the slices starts `i` pieces in. */
  lemma {:induction false} SlicesAt(d: seq<int>, n: nat, p: nat, i: nat)
    requires |d| == Times(n, p) && i < n
    ensures Times(i, p) + p <= |d| && Slices(d, n, p)[i] == d[Times(i, p)..Times(i, p) + p]
    decreases i
  {
    if i > 0 {
      SlicesAt(d[p..], n - 1, p, i - 1);
      var ip := Times(i - 1, p);
      assert d[p..][ip..ip + p] == d[ip + p..ip + p + p];
    }
  }

  /** Position `r` of piece `i`, when every piece has length `q`. */
  lemma {:induction false} ConcatAt(pieces: seq<seq<int>>, q: nat, i: nat, r: nat)
    requires forall j :: 0 <= j < |pieces| ==> |pieces[j]| == q
    requires i < |pieces| && r < q
    ensures |Concat(pieces)| == Times(|pieces|, q) && Times(i, q) + r < Times(|pieces|, q)
    ensures Concat(pieces)[Times(i, q) + r] == pieces[i][r]
    decreases i
  {
    ConcatLength(pieces, q);
    if i > 0 {
      ConcatAt(pieces[1..], q, i - 1, r);
    }
  }

  /** Pieces of length `q` laid end to end fill `|pieces|` times `q` positions. */
  lemma {:induction false} ConcatLength(pieces: seq<seq<int>>, q: nat)
    requires forall j :: 0 <= j < |pieces| ==> |pieces[j]| == q
    ensures |Concat(pieces)| == Times(|pieces|, q)
    decreases |pieces|
  {
    if |pieces| > 0 {
      ConcatLength(pieces[1..], q);
    }
  }

  /** Laying the slices of `d` end to end gives back `d`. */
  lemma {:induction false} ConcatSlices(d: seq<int>, n: nat, p: nat)
    requires |d| == Times(n, p)
    ensures Concat(Slices(d, n, p)) == d
    decreases n
  {
    if n > 0 {
      ConcatSlices(d[p..], n - 1, p);
      assert Slices(d, n, p)[1..] == Slices(d[p..], n - 1, p);
      assert d[..p] + d[p..] == d;
    }
  }

  lemma NextMultiple(i: nat, p: nat)
    ensures (i + 1) * p == i * p + p && i * p >= 0
  {
  }

  lemma DivBelow(k: nat, a: nat, q: nat)
    requires k < a * q
    ensures q > 0 && k / q < a
  {
    if k / q >= a {
      MulMono(a, k / q, q);
    }
  }

  lemma MulMono(a: nat, b: nat, p: nat)
    requires a <= b
    ensures a * p <= b * p
  {
    assert b * p == a * p + (b - a) * p;
  }

  /** Broadcasting `(2,)` to `(3, 2)` repeats the whole row, as numpy does. */
  lemma BroadcastExampleRow()
    ensures BroadcastsTo([2], [3, 2])
    ensures BroadcastData([7, 8], [2], [3, 2]) == [7, 8, 7, 8, 7, 8]
  {
    assert Pad([2], 2) == [1, 2];
    var t := [3, 2];
    BroadcastsToTail([2], t);
    assert t[1..] == [2];
    BroadcastDataToSelf([7, 8], [2]);
    assert Repeat([7, 8], 3) == [7, 8] + ([7, 8] + ([7, 8] + []));
  }

  /** Broadcasting to the array's own shape changes nothing, so the adapters' `xsh != bsh`
      test only saves work. */
  lemma {:induction false} BroadcastDataToSelf(d: seq<int>, s: Shape)
    requires |d| == Product(s)
    ensures BroadcastsTo(s, s)
    ensures BroadcastData(d, s, s) == d
    decreases |s|, 2
  {
    assert Pad(s, |s|) == s;
    if |s| > 0 {
      BroadcastsToTail(s, s);
      if s[0] == 1 {
        BroadcastDataToSelf(d, s[1..]);
        assert Repeat(d, 1) == d + [];
      } else {
        TimesIsMul(s[0], Product(s[1..]));
        BlocksToSelf(d, s[0], s[1..]);
      }
    }
  }

  lemma BlocksToSelf(d: seq<int>, n: nat, s: Shape)
    requires |d| == Times(n, Product(s))
    ensures BroadcastsTo(s, s)
    ensures Blocks(d, n, s, s) == d
    decreases |s| + 1, 1
  {
    assert Pad(s, |s|) == s;
    var src := Slices(d, n, Product(s));
    var out := BroadcastEach(src, s, s);
    forall j | 0 <= j < n
      ensures out[j] == src[j]
    {
      BroadcastDataToSelf(src[j], s);
    }
    assert out == src;
    ConcatSlices(d, n, Product(s));
  }

  lemma MulSucc(n: nat, p: nat)
    requires n > 0
    ensures n * p == p + (n - 1) * p
  {
  }

  /** Broadcasting a zero-dimensional array fills the whole target with its one value. */
  lemma {:induction false} BroadcastScalar(v: int, t: Shape)
    ensures BroadcastsTo([], t)
    ensures BroadcastData([v], [], t) == seq(Product(t), _ => v)
    decreases |t|
  {
    assert Pad([], |t|) == seq(|t|, _ => 1);
    if |t| > 0 {
      BroadcastsToTail([], t);
      BroadcastScalar(v, t[1..]);
      RepeatConstant(v, Product(t[1..]), t[0]);
    }
  }

  /** Repeating a constant sequence gives a longer constant sequence. */
  lemma {:induction false} RepeatConstant(v: int, len: nat, n: nat)
    ensures Repeat(seq(len, _ => v), n) == seq(n * len, _ => v)
  {
    if n > 0 {
      RepeatConstant(v, len, n - 1);
      assert n * len == len + (n - 1) * len;
    }
  }

  /** `-d`, element by element. */
  function Negated(d: seq<int>): (r: seq<int>)
    ensures |r| == |d|
  {
    seq(|d|, k requires 0 <= k < |d| => -d[k])
  }

  /** `a + b`, element by element. */
  function Sum(a: seq<int>, b: seq<int>): (r: seq<int>)
    requires |a| == |b|
    ensures |r| == |a|
  {
    seq(|a|, k requires 0 <= k < |a| => a[k] + b[k])
  }

  /** Negating twice gives back the original data (`negative(negative(x)) == x`). */
  lemma NegatedTwice(d: seq<int>)
    ensures Negated(Negated(d)) == d
  {
  }
}
