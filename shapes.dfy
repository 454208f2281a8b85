/** Shapes and their mutual broadcast under numpy's rules (`broadcast_shapes`). */
module Shapes {
  import opened Wrappers

  /** An array shape: a tuple of non-negative dimension sizes. */
  type Shape = seq<nat>

  /** Number of elements of an array of shape `s`; 1 for the zero-dimensional shape `()`. */
  function Product(s: Shape): nat
  {
    if s == [] then 1 else s[0] * Product(s[1..])
  }

  /** The largest length among `shapes` (`np.max` over their lengths); 0 when there are none. */
  function MaxLen(shapes: seq<Shape>): (n: nat)
    ensures forall j :: 0 <= j < |shapes| ==> |shapes[j]| <= n
    ensures |shapes| > 0 ==> exists j :: 0 <= j < |shapes| && |shapes[j]| == n
  {
    if |shapes| == 0 then 0
    else
      var rest := MaxLen(shapes[1..]);
      assert forall j :: 1 <= j < |shapes| ==> shapes[j] == shapes[1..][j - 1];
      if |shapes[0]| >= rest then |shapes[0]| else rest
  }

  /** `s` left-padded with 1s to length `n`: `(1,) * (n - len(s)) + s`. */
  function Pad(s: Shape, n: nat): Shape
    requires |s| <= n
  {
    seq(n - |s|, _ => 1) + s
  }

  /** Position `i` of every shape once padded to length `n`: one column of `padded`. */
  function Column(shapes: seq<Shape>, n: nat, i: nat): seq<nat>
    requires forall j :: 0 <= j < |shapes| ==> |shapes[j]| <= n
    requires i < n
  {
    seq(|shapes|, j requires 0 <= j < |shapes| => Pad(shapes[j], n)[i])
  }

  /** The first size in `c` that is not 1, or 1 when every size is 1. */
  function DimOf(c: seq<nat>): nat
  {
    if c == [] then 1 else if c[0] != 1 then c[0] else DimOf(c[1..])
  }

  /** No two sizes in `c` that differ from 1 differ from each other (0 counts as non-1). */
  predicate Agrees(c: seq<nat>)
  {
    forall a, b :: 0 <= a < |c| && 0 <= b < |c| && c[a] != 1 && c[b] != 1 ==> c[a] == c[b]
  }

  /** Column `c` agrees and merges to `v`. */
  predicate Merged(c: seq<nat>, v: nat)
  {
    Agrees(c) && DimOf(c) == v
  }

  /** The broadcast of `shapes`, defined column by column: every column must agree and
      the result takes its common non-1 size, or 1. Zero shapes is an error, as `np.max`
      of an empty list is. */
  function Broadcast(shapes: seq<Shape>): Result<Shape, Error>
  {
    if |shapes| == 0 then Failure(EmptyShapeList)
    else
      var n := MaxLen(shapes);
      if forall i :: 0 <= i < n ==> Agrees(Column(shapes, n, i))
      then Success(seq(n, i requires 0 <= i < n => DimOf(Column(shapes, n, i))))
      else Failure(ShapeMismatch)
  }

  /** numpy's rule for a broadcast result `r`: it is as long as the longest shape; at each
      position every padded size is 1 or r[i]; and r[i] is 1 or one of those sizes. */
  ghost predicate IsBroadcastOf(shapes: seq<Shape>, r: Shape)
  {
    |r| == MaxLen(shapes) &&
    forall i :: 0 <= i < |r| ==>
      (forall j :: 0 <= j < |shapes| ==> Pad(shapes[j], |r|)[i] == 1 || Pad(shapes[j], |r|)[i] == r[i]) &&
      (r[i] == 1 || exists j :: 0 <= j < |shapes| && Pad(shapes[j], |r|)[i] == r[i])
  }

  /** Two padded shapes have different non-1 sizes at one position. */
  ghost predicate Conflict(shapes: seq<Shape>)
  {
    exists i, j, k :: 0 <= i < MaxLen(shapes) && 0 <= j < |shapes| && 0 <= k < |shapes| &&
      Pad(shapes[j], MaxLen(shapes))[i] != 1 && Pad(shapes[k], MaxLen(shapes))[i] != 1 &&
      Pad(shapes[j], MaxLen(shapes))[i] != Pad(shapes[k], MaxLen(shapes))[i]
  }

  /** `s` broadcasts up to `t` (as `np.broadcast_to(x, t)` requires): `s` is no longer and
      each of its padded sizes is 1 or the size of `t` there. */
  predicate BroadcastsTo(s: Shape, t: Shape)
  {
    |s| <= |t| && forall k :: 0 <= k < |t| ==> Pad(s, |t|)[k] == 1 || Pad(s, |t|)[k] == t[k]
  }

  // ---------------------------------------------------------------------------
  // The loop of broadcast_shapes

  /** `broadcast_shapes(*shapes)`: pads every shape to the longest length (the rows of
      `padded`), then merges each column into `result`, which starts as the first row and
      is updated in place. */
  method BroadcastShapes(shapes: seq<Shape>) returns (r: Result<Shape, Error>)
    ensures r == Broadcast(shapes)
  {
    if |shapes| == 0 {
      return Failure(EmptyShapeList);
    }
    var maxlen := MaxLen(shapes);
    var padded := seq(|shapes|, j requires 0 <= j < |shapes| => Pad(shapes[j], maxlen));
    var result := new nat[maxlen](k => if 0 <= k < maxlen then padded[0][k] else 1);

    for i := 0 to maxlen
      invariant forall k :: i <= k < maxlen ==> result[k] == padded[0][k]
      invariant forall k :: 0 <= k < i ==> Merged(Column(shapes, maxlen, k), result[k])
    {
      ghost var c := Column(shapes, maxlen, i);
      assert c[..1] == [c[0]];
      for j := 1 to |shapes|
        invariant forall k :: i < k < maxlen ==> result[k] == padded[0][k]
        invariant forall k :: 0 <= k < i ==> Merged(Column(shapes, maxlen, k), result[k])
        invariant Merged(c[..j], result[i])
      {
        var x := padded[j][i];
        assert x == c[j];
        ExtendColumn(c, j);
        if x != 1 {
          if result[i] == 1 {
            result[i] := x;
          } else if result[i] != x {
            assert !Agrees(c);
            return Failure(ShapeMismatch);
          }
        }
      }
      assert c[..|shapes|] == c;
      assert Merged(c, result[i]);
    }
    r := Success(result[..]);
    assert r.value == seq(maxlen, i requires 0 <= i < maxlen => DimOf(Column(shapes, maxlen, i)));
  }

  // ---------------------------------------------------------------------------
  // Facts about one column

  /** A column agrees and merges to `v` exactly when each of its sizes is 1 or `v` and
      `v` is 1 or one of them. */
  lemma {:induction false} ColumnSpec(c: seq<nat>, v: nat)
    ensures (Agrees(c) && DimOf(c) == v) <==>
      ((forall k :: 0 <= k < |c| ==> c[k] == 1 || c[k] == v) &&
       (v == 1 || exists k :: 0 <= k < |c| && c[k] == v))
  {
    if c != [] && c[0] == 1 {
      var t := c[1..];
      ColumnSpec(t, v);
      assert forall k :: 1 <= k < |c| ==> c[k] == t[k - 1];
      assert Agrees(c) <==> Agrees(t) by {
        if Agrees(t) {
          forall a, b | 0 <= a < |c| && 0 <= b < |c| && c[a] != 1 && c[b] != 1
            ensures c[a] == c[b]
          {
            assert t[a - 1] == c[a] && t[b - 1] == c[b];
          }
        }
      }
      if v != 1 && (exists k :: 0 <= k < |c| && c[k] == v) {
        var k :| 0 <= k < |c| && c[k] == v;
        assert t[k - 1] == v;
      }
    }
  }

  /** One step of the inner loop: adding size `c[j]` to an agreeing prefix. */
  lemma ExtendColumn(c: seq<nat>, j: nat)
    requires j < |c| && Agrees(c[..j])
    ensures var v, x := DimOf(c[..j]), c[j];
      if x != 1 && v != 1 && x != v then !Agrees(c)
      else Agrees(c[..j + 1]) && DimOf(c[..j + 1]) == (if v == 1 then x else v)
  {
    var p, q := c[..j], c[..j + 1];
    var v, x := DimOf(p), c[j];
    ColumnSpec(p, v);
    assert q[j] == x;
    assert forall k :: 0 <= k < j ==> q[k] == p[k];
    if x != 1 && v != 1 && x != v {
      var a :| 0 <= a < |p| && p[a] == v;
      assert c[a] == v;
    } else {
      var w := if v == 1 then x else v;
      ColumnSpec(q, w);
      if w != 1 {
        if v == 1 {
          assert q[j] == w;
        } else {
          var a :| 0 <= a < |p| && p[a] == v;
          assert q[a] == w;
        }
      }
    }
  }

  /** The padded size at `i` is 1 left of the shape, else the shape's own size there. */
  lemma PadAt(s: Shape, n: nat, i: nat)
    requires |s| <= n && i < n
    ensures Pad(s, n)[i] == if i < n - |s| then 1 else s[i - (n - |s|)]
  {
  }

  // ---------------------------------------------------------------------------
  // What Broadcast computes

  /** Broadcast succeeds with `r` exactly when there is at least one shape and `r`
      follows numpy's rule (both directions). */
  lemma BroadcastSpec(shapes: seq<Shape>, r: Shape)
    ensures Broadcast(shapes) == Success(r) <==> |shapes| > 0 && IsBroadcastOf(shapes, r)
  {
    if |shapes| > 0 {
      var n := MaxLen(shapes);
      if Broadcast(shapes) == Success(r) {
        forall i | 0 <= i < n
          ensures (forall j :: 0 <= j < |shapes| ==> Pad(shapes[j], n)[i] == 1 || Pad(shapes[j], n)[i] == r[i]) &&
                  (r[i] == 1 || exists j :: 0 <= j < |shapes| && Pad(shapes[j], n)[i] == r[i])
        {
          var c := Column(shapes, n, i);
          assert Agrees(c) && r[i] == DimOf(c);
          ColumnSpec(c, r[i]);
          forall j | 0 <= j < |shapes|
            ensures Pad(shapes[j], n)[i] == 1 || Pad(shapes[j], n)[i] == r[i]
          {
            assert c[j] == Pad(shapes[j], n)[i];
          }
          if r[i] != 1 {
            var k :| 0 <= k < |c| && c[k] == r[i];
            assert Pad(shapes[k], n)[i] == r[i];
          }
        }
      }
      if IsBroadcastOf(shapes, r) {
        forall i | 0 <= i < n
          ensures Agrees(Column(shapes, n, i)) && DimOf(Column(shapes, n, i)) == r[i]
        {
          var c := Column(shapes, n, i);
          if r[i] != 1 {
            var k :| 0 <= k < |shapes| && Pad(shapes[k], n)[i] == r[i];
            assert c[k] == r[i];
          }
          ColumnSpec(c, r[i]);
        }
        assert r == seq(n, i requires 0 <= i < n => DimOf(Column(shapes, n, i)));
      }
    }
  }

  /** Broadcast raises the shape-mismatch error exactly when two padded shapes have
      different non-1 sizes at one position. */
  lemma BroadcastMismatch(shapes: seq<Shape>)
    ensures Broadcast(shapes) == Failure(ShapeMismatch) <==> |shapes| > 0 && Conflict(shapes)
  {
    if |shapes| > 0 {
      var n := MaxLen(shapes);
      if Conflict(shapes) {
        ConflictDisagrees(shapes);
      }
      if Broadcast(shapes) == Failure(ShapeMismatch) {
        var i :| 0 <= i < n && !Agrees(Column(shapes, n, i));
        DisagreementConflicts(shapes, i);
      }
    }
  }

  /** Two clashing padded shapes make their column disagree. */
  lemma ConflictDisagrees(shapes: seq<Shape>)
    requires Conflict(shapes)
    ensures exists i :: 0 <= i < MaxLen(shapes) && !Agrees(Column(shapes, MaxLen(shapes), i))
  {
    var n := MaxLen(shapes);
    var i, j, k :| 0 <= i < n && 0 <= j < |shapes| && 0 <= k < |shapes| &&
      Pad(shapes[j], n)[i] != 1 && Pad(shapes[k], n)[i] != 1 &&
      Pad(shapes[j], n)[i] != Pad(shapes[k], n)[i];
    var c := Column(shapes, n, i);
    assert c[j] != c[k];
  }

  /** A column that disagrees holds two clashing padded shapes. */
  lemma DisagreementConflicts(shapes: seq<Shape>, i: nat)
    requires i < MaxLen(shapes) && !Agrees(Column(shapes, MaxLen(shapes), i))
    ensures Conflict(shapes)
  {
    var n := MaxLen(shapes);
    var c := Column(shapes, n, i);
    var a, b :| 0 <= a < |c| && 0 <= b < |c| && c[a] != 1 && c[b] != 1 && c[a] != c[b];
    assert Pad(shapes[a], n)[i] == c[a] && Pad(shapes[b], n)[i] == c[b];
  }

  /** Every input broadcasts up to the broadcast result. */
  lemma BroadcastCoversInputs(shapes: seq<Shape>, r: Shape)
    requires Broadcast(shapes) == Success(r)
    ensures forall j :: 0 <= j < |shapes| ==> BroadcastsTo(shapes[j], r)
  {
    BroadcastSpec(shapes, r);
  }

  /** The broadcast of some shapes and a last shape `o` is `o` itself exactly when every
      other shape broadcasts up to `o`: the check the tidy adapters make on `out`. */
  lemma BroadcastOntoLast(shapes: seq<Shape>, o: Shape)
    ensures Broadcast(shapes + [o]) == Success(o) <==>
      forall j :: 0 <= j < |shapes| ==> BroadcastsTo(shapes[j], o)
  {
    BroadcastSpec(shapes + [o], o);
    OntoLastRule(shapes, o);
  }

  /** The `out` checks of the unary and binary adapters, one shape and two shapes at a time. */
  lemma OutCheckUnary(x: Shape, o: Shape)
    ensures Broadcast([x, o]) == Success(o) <==> BroadcastsTo(x, o)
  {
    BroadcastOntoLast([x], o);
    assert [x] + [o] == [x, o];
  }

  lemma OutCheckBinary(x: Shape, y: Shape, o: Shape)
    ensures Broadcast([x, y, o]) == Success(o) <==> BroadcastsTo(x, o) && BroadcastsTo(y, o)
  {
    BroadcastOntoLast([x, y], o);
    assert [x, y] + [o] == [x, y, o];
    assert [x, y][0] == x && [x, y][1] == y;
  }

  /** `o` follows numpy's rule for `shapes + [o]` exactly when every shape broadcasts to `o`. */
  lemma OntoLastRule(shapes: seq<Shape>, o: Shape)
    ensures IsBroadcastOf(shapes + [o], o) <==> forall j :: 0 <= j < |shapes| ==> BroadcastsTo(shapes[j], o)
  {
    if forall j :: 0 <= j < |shapes| ==> BroadcastsTo(shapes[j], o) {
      OntoLastFromInputs(shapes, o);
    }
    if IsBroadcastOf(shapes + [o], o) {
      var all := shapes + [o];
      forall j | 0 <= j < |shapes|
        ensures BroadcastsTo(shapes[j], o)
      {
        assert all[j] == shapes[j];
      }
    }
  }

  lemma OntoLastFromInputs(shapes: seq<Shape>, o: Shape)
    requires forall j :: 0 <= j < |shapes| ==> BroadcastsTo(shapes[j], o)
    ensures IsBroadcastOf(shapes + [o], o)
  {
    var all := shapes + [o];
    assert all[|shapes|] == o;
    assert Pad(o, |o|) == o;
    assert forall j :: 0 <= j < |all| ==> |all[j]| <= |o|;
    var n := MaxLen(all);
    var w :| 0 <= w < |all| && |all[w]| == n;
    assert n == |o|;
    forall i | 0 <= i < |o|
      ensures (forall j :: 0 <= j < |all| ==> Pad(all[j], |o|)[i] == 1 || Pad(all[j], |o|)[i] == o[i]) &&
              (o[i] == 1 || exists j :: 0 <= j < |all| && Pad(all[j], |o|)[i] == o[i])
    {
      assert Pad(all[|shapes|], |o|)[i] == o[i];
      forall j | 0 <= j < |all|
        ensures Pad(all[j], |o|)[i] == 1 || Pad(all[j], |o|)[i] == o[i]
      {
        if j < |shapes| {
          assert all[j] == shapes[j];
        }
      }
    }
  }

  /** Broadcasting one shape, or several identical shapes, gives that shape back. */
  lemma BroadcastIdentical(shapes: seq<Shape>, s: Shape)
    requires |shapes| > 0 && forall j :: 0 <= j < |shapes| ==> shapes[j] == s
    ensures Broadcast(shapes) == Success(s)
  {
    var n := MaxLen(shapes);
    assert shapes[0] == s;
    assert n == |s|;
    assert Pad(s, n) == s;
    forall i | 0 <= i < n
      ensures (forall j :: 0 <= j < |shapes| ==> Pad(shapes[j], n)[i] == 1 || Pad(shapes[j], n)[i] == s[i]) &&
              (s[i] == 1 || exists j :: 0 <= j < |shapes| && Pad(shapes[j], n)[i] == s[i])
    {
      assert Pad(shapes[0], n)[i] == s[i];
    }
    BroadcastSpec(shapes, s);
  }

  /** The longest of two or three shapes. */
  lemma MaxLenOfFew(a: Shape, b: Shape, c: Shape)
    ensures MaxLen([a, b]) == if |a| >= |b| then |a| else |b|
    ensures MaxLen([a, b, c]) == if MaxLen([a, b]) >= |c| then MaxLen([a, b]) else |c|
  {
    assert [a, b][1..] == [b] && [b][1..] == [];
    assert [a, b, c][1..] == [b, c] && [b, c][1..] == [c] && [c][1..] == [];
  }

  /** Two non-empty shape lists whose columns agree and merge alike broadcast alike. */
  lemma SameColumns(s1: seq<Shape>, s2: seq<Shape>)
    requires |s1| > 0 && |s2| > 0 && MaxLen(s1) == MaxLen(s2)
    requires forall i :: 0 <= i < MaxLen(s1) ==>
      (Agrees(Column(s1, MaxLen(s1), i)) <==> Agrees(Column(s2, MaxLen(s1), i))) &&
      (Agrees(Column(s1, MaxLen(s1), i)) ==> DimOf(Column(s1, MaxLen(s1), i)) == DimOf(Column(s2, MaxLen(s1), i)))
    ensures Broadcast(s1) == Broadcast(s2)
  {
    var n := MaxLen(s1);
    if forall i :: 0 <= i < n ==> Agrees(Column(s1, n, i)) {
      assert seq(n, i requires 0 <= i < n => DimOf(Column(s1, n, i))) ==
             seq(n, i requires 0 <= i < n => DimOf(Column(s2, n, i)));
    }
  }

  /** A column of two or three shapes, written out. */
  lemma ColumnOfTwo(a: Shape, b: Shape, n: nat, i: nat)
    requires |a| <= n && |b| <= n && i < n
    ensures Column([a, b], n, i) == [Pad(a, n)[i], Pad(b, n)[i]]
  {
    var c := Column([a, b], n, i);
    assert |c| == 2 && c[0] == Pad(a, n)[i] && c[1] == Pad(b, n)[i];
  }

  lemma ColumnOfThree(a: Shape, b: Shape, c: Shape, n: nat, i: nat)
    requires |a| <= n && |b| <= n && |c| <= n && i < n
    ensures Column([a, b, c], n, i) == [Pad(a, n)[i], Pad(b, n)[i], Pad(c, n)[i]]
  {
    var col := Column([a, b, c], n, i);
    assert |col| == 3 && col[0] == Pad(a, n)[i] && col[1] == Pad(b, n)[i] && col[2] == Pad(c, n)[i];
  }

  /** The broadcast of two shapes does not depend on their order. */
  lemma BroadcastCommutes(a: Shape, b: Shape)
    ensures Broadcast([a, b]) == Broadcast([b, a])
  {
    MaxLenOfFew(a, b, []);
    MaxLenOfFew(b, a, []);
    var n := MaxLen([a, b]);
    forall i | 0 <= i < n
      ensures Agrees(Column([a, b], n, i)) <==> Agrees(Column([b, a], n, i))
      ensures Agrees(Column([a, b], n, i)) ==> DimOf(Column([a, b], n, i)) == DimOf(Column([b, a], n, i))
    {
      var x, y := Pad(a, n)[i], Pad(b, n)[i];
      ColumnOfTwo(a, b, n, i);
      ColumnOfTwo(b, a, n, i);
      PairColumn(x, y);
      PairColumn(y, x);
    }
    SameColumns([a, b], [b, a]);
  }

  /** A column of two sizes agrees when one is 1 or both are equal; it merges to the
      first size unless that is 1. */
  lemma PairColumn(x: nat, y: nat)
    ensures Agrees([x, y]) <==> (x == 1 || y == 1 || x == y)
    ensures DimOf([x, y]) == if x != 1 then x else y
  {
    var c := [x, y];
    assert c[1..] == [y] && [y][1..] == [];
    assert DimOf([y]) == if y != 1 then y else 1;
    if x == 1 || y == 1 || x == y {
      forall a, b | 0 <= a < |c| && 0 <= b < |c| && c[a] != 1 && c[b] != 1
        ensures c[a] == c[b]
      {
        assert a == 0 || a == 1;
        assert b == 0 || b == 1;
      }
    } else {
      assert c[0] != c[1];
    }
  }

  /** The same for a column of three sizes. */
  lemma TripleColumn(x: nat, y: nat, z: nat)
    ensures Agrees([x, y, z]) <==>
      (x == 1 || y == 1 || x == y) && (x == 1 || z == 1 || x == z) && (y == 1 || z == 1 || y == z)
    ensures DimOf([x, y, z]) == if x != 1 then x else if y != 1 then y else z
  {
    var c := [x, y, z];
    assert c[1..] == [y, z] && [y, z][1..] == [z] && [z][1..] == [];
    assert DimOf([z]) == if z != 1 then z else 1;
    assert DimOf([y, z]) == if y != 1 then y else DimOf([z]);
    if (x == 1 || y == 1 || x == y) && (x == 1 || z == 1 || x == z) && (y == 1 || z == 1 || y == z) {
      forall a, b | 0 <= a < |c| && 0 <= b < |c| && c[a] != 1 && c[b] != 1
        ensures c[a] == c[b]
      {
        assert a == 0 || a == 1 || a == 2;
        assert b == 0 || b == 1 || b == 2;
      }
    } else {
      if !(x == 1 || y == 1 || x == y) {
        assert c[0] != c[1];
      } else if !(x == 1 || z == 1 || x == z) {
        assert c[0] != c[2];
      } else {
        assert c[1] != c[2];
      }
    }
  }

  /** Merging a column of three sizes in one go, or the first two and then the third. */
  lemma MergeThree(x: nat, y: nat, z: nat)
    requires Agrees([x, y])
    ensures Agrees([DimOf([x, y]), z]) <==> Agrees([x, y, z])
    ensures DimOf([DimOf([x, y]), z]) == DimOf([x, y, z])
  {
    PairColumn(x, y);
    PairColumn(DimOf([x, y]), z);
    TripleColumn(x, y, z);
  }

  /** Padding to `m1` and then to `m` is padding to `m`. */
  lemma PadTwice(s: Shape, m1: nat, m: nat, i: nat)
    requires |s| <= m1 <= m && i < m
    ensures Pad(s, m)[i] == if i < m - m1 then 1 else Pad(s, m1)[i - (m - m1)]
  {
    PadAt(s, m, i);
    if i >= m - m1 {
      PadAt(s, m1, i - (m - m1));
    }
  }

  /** A successful broadcast, column by column: every column agrees and gives its size. */
  lemma BroadcastColumns(shapes: seq<Shape>, r: Shape)
    requires Broadcast(shapes) == Success(r)
    ensures |r| == MaxLen(shapes)
    ensures forall k :: 0 <= k < |r| ==> Agrees(Column(shapes, |r|, k)) && r[k] == DimOf(Column(shapes, |r|, k))
  {
  }

  /** The padded broadcast `ab` of `a` and `b` is, position by position, the merge of the
      padded `a` and `b`. */
  lemma PaddedPair(a: Shape, b: Shape, ab: Shape, m: nat, i: nat)
    requires |a| <= |ab| && |b| <= |ab| && |ab| <= m && i < m
    requires i >= m - |ab| ==>
      Agrees(Column([a, b], |ab|, i - (m - |ab|))) && ab[i - (m - |ab|)] == DimOf(Column([a, b], |ab|, i - (m - |ab|)))
    ensures Agrees([Pad(a, m)[i], Pad(b, m)[i]])
    ensures Pad(ab, m)[i] == DimOf([Pad(a, m)[i], Pad(b, m)[i]])
  {
    var m1 := |ab|;
    PadTwice(a, m1, m, i);
    PadTwice(b, m1, m, i);
    PadTwice(ab, m1, m, i);
    if i < m - m1 {
      PairColumn(1, 1);
    } else {
      var k := i - (m - m1);
      PadAt(ab, m1, k);
      ColumnOfTwo(a, b, m1, k);
    }
  }

  /** A column the pair (a, b) cannot agree on is one the triple (a, b, c) cannot. */
  lemma PairMismatchSpreads(a: Shape, b: Shape, c: Shape, m1: nat, m: nat, k: nat)
    requires |a| <= m1 && |b| <= m1 && m1 <= m && |c| <= m && k < m1
    requires !Agrees(Column([a, b], m1, k))
    ensures !Agrees(Column([a, b, c], m, k + (m - m1)))
  {
    var i := k + (m - m1);
    var x, y, z := Pad(a, m)[i], Pad(b, m)[i], Pad(c, m)[i];
    PadTwice(a, m1, m, i);
    PadTwice(b, m1, m, i);
    assert x == Pad(a, m1)[k] && y == Pad(b, m1)[k];
    ColumnOfTwo(a, b, m1, k);
    assert !Agrees([x, y]);
    PairColumn(x, y);
    TripleColumn(x, y, z);
    assert !Agrees([x, y, z]);
    ColumnOfThree(a, b, c, m, i);
  }

  /** Column `i` of (broadcast(a, b), c) behaves as column `i` of (a, b, c). */
  lemma NestedColumn(a: Shape, b: Shape, c: Shape, ab: Shape, m: nat, i: nat)
    requires |ab| == MaxLen([a, b])
    requires forall k :: 0 <= k < |ab| ==> Agrees(Column([a, b], |ab|, k)) && ab[k] == DimOf(Column([a, b], |ab|, k))
    requires m == MaxLen([a, b, c]) && m == MaxLen([ab, c]) && i < m
    ensures Agrees(Column([ab, c], m, i)) <==> Agrees(Column([a, b, c], m, i))
    ensures Agrees(Column([ab, c], m, i)) ==> DimOf(Column([ab, c], m, i)) == DimOf(Column([a, b, c], m, i))
  {
    MaxLenOfFew(ab, c, []);
    MaxLenOfFew(a, b, c);
    var x, y, z := Pad(a, m)[i], Pad(b, m)[i], Pad(c, m)[i];
    PaddedPair(a, b, ab, m, i);
    ColumnOfTwo(ab, c, m, i);
    ColumnOfThree(a, b, c, m, i);
    MergeThree(x, y, z);
  }

  /** `broadcast(broadcast(a, b), c) == broadcast(a, b, c)`: the broadcast is associative,
      and a failing inner broadcast makes the three-way broadcast fail too. */
  lemma BroadcastAssociates(a: Shape, b: Shape, c: Shape)
    ensures Broadcast([a, b]).Failure? ==> Broadcast([a, b, c]) == Failure(ShapeMismatch)
    ensures Broadcast([a, b]).Success? ==> Broadcast([Broadcast([a, b]).value, c]) == Broadcast([a, b, c])
  {
    if Broadcast([a, b]).Failure? {
      InnerClashSpreads(a, b, c);
    } else {
      InnerMergeAssociates(a, b, c, Broadcast([a, b]).value);
    }
  }

  lemma InnerClashSpreads(a: Shape, b: Shape, c: Shape)
    requires Broadcast([a, b]).Failure?
    ensures Broadcast([a, b, c]) == Failure(ShapeMismatch)
  {
    var m1 := MaxLen([a, b]);
    var k :| 0 <= k < m1 && !Agrees(Column([a, b], m1, k));
    MaxLenOfFew(a, b, c);
    var m := MaxLen([a, b, c]);
    PairMismatchSpreads(a, b, c, m1, m, k);
  }

  lemma InnerMergeAssociates(a: Shape, b: Shape, c: Shape, ab: Shape)
    requires Broadcast([a, b]) == Success(ab)
    ensures Broadcast([ab, c]) == Broadcast([a, b, c])
  {
    BroadcastColumns([a, b], ab);
    MaxLenOfFew(a, b, c);
    MaxLenOfFew(ab, c, []);
    var m := MaxLen([a, b, c]);
    forall i | 0 <= i < m
      ensures Agrees(Column([ab, c], m, i)) <==> Agrees(Column([a, b, c], m, i))
      ensures Agrees(Column([ab, c], m, i)) ==> DimOf(Column([ab, c], m, i)) == DimOf(Column([a, b, c], m, i))
    {
      NestedColumn(a, b, c, ab, m, i);
    }
    SameColumns([ab, c], [a, b, c]);
  }

  /** (2,3) with (3,) broadcasts to (2,3). */
  lemma BroadcastExampleRows()
    ensures Broadcast([[2, 3], [3]]) == Success([2, 3])
  {
    assert Pad([3], 2) == [1, 3];
    BroadcastOntoLast([[3]], [2, 3]);
    assert [[3]] + [[2, 3]] == [[3], [2, 3]];
    BroadcastCommutes([2, 3], [3]);
  }

  /** (1,) with (5,) broadcasts to (5,). */
  lemma BroadcastExampleStretch()
    ensures Broadcast([[1], [5]]) == Success([5])
  {
    assert Pad([1], 1) == [1];
    BroadcastOntoLast([[1]], [5]);
    assert [[1]] + [[5]] == [[1], [5]];
  }

  /** (2,) with (3,) cannot be broadcast. */
  lemma BroadcastExampleMismatch()
    ensures Broadcast([[2], [3]]) == Failure(ShapeMismatch)
  {
    MaxLenOfFew([2], [3], []);
    assert Pad([2], 1) == [2] && Pad([3], 1) == [3];
    ColumnOfTwo([2], [3], 1, 0);
    PairColumn(2, 3);
  }
}
