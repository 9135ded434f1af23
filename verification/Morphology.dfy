/** 3x3 erosion and dilation, with the algebra that ties them together. */
module Morphology {
  import opened Otsu
  import opened Binarise

  type Image = seq<seq<Pixel>>

  ghost predicate Sized(a: Image, h: nat, w: nat) {
    |a| == h && forall y :: 0 <= y < h ==> |a[y]| == w
  }

  predicate Interior(y: int, x: int, h: nat, w: nat) {
    1 <= y < h - 1 && 1 <= x < w - 1
  }

  predicate Near(y: int, x: int, y': int, x': int) {
    -1 <= y - y' <= 1 && -1 <= x - x' <= 1
  }

  function Complement(a: Image): Image {
    seq(|a|, y requires 0 <= y < |a| => seq(|a[y]|, x requires 0 <= x < |a[y]| => 255 - a[y][x]))
  }

  function BinaryImage(a: Image, t: Pixel): Image {
    seq(|a|, y requires 0 <= y < |a| => Binary(a[y], t))
  }

  // Smallest and largest of 255 resp. 0 and the first k pixels of the window around (y, x),
  // row by row.
  ghost function MinFirst(a: Image, h: nat, w: nat, y: int, x: int, k: nat): Pixel
    requires Sized(a, h, w) && Interior(y, x, h, w) && k <= 9
  {
    if k == 0 then 255
    else
      var (m, p) := (MinFirst(a, h, w, y, x, k - 1), a[y - 1 + (k - 1) / 3][x - 1 + (k - 1) % 3]);
      if p < m then p else m
  }

  ghost function MaxFirst(a: Image, h: nat, w: nat, y: int, x: int, k: nat): Pixel
    requires Sized(a, h, w) && Interior(y, x, h, w) && k <= 9
  {
    if k == 0 then 0
    else
      var (m, p) := (MaxFirst(a, h, w, y, x, k - 1), a[y - 1 + (k - 1) / 3][x - 1 + (k - 1) % 3]);
      if p > m then p else m
  }

  ghost function Erosion(a: Image, h: nat, w: nat, y: int, x: int): Pixel
    requires Sized(a, h, w) && Interior(y, x, h, w)
  {
    MinFirst(a, h, w, y, x, 9)
  }

  ghost function Dilation(a: Image, h: nat, w: nat, y: int, x: int): Pixel
    requires Sized(a, h, w) && Interior(y, x, h, w)
  {
    MaxFirst(a, h, w, y, x, 9)
  }

  // ---------------------------------------------------------------------------------------
  // The two filters, in loops over a destination that keeps its border
  // ---------------------------------------------------------------------------------------

  ghost function Rows(a: array2<Pixel>): (r: Image)
    reads a
    ensures Sized(r, a.Length0, a.Length1)
    ensures forall y, x :: 0 <= y < a.Length0 && 0 <= x < a.Length1 ==> r[y][x] == a[y, x]
  {
    seq(a.Length0, y requires 0 <= y < a.Length0 reads a =>
      seq(a.Length1, x requires 0 <= x < a.Length1 reads a => a[y, x]))
  }

  // The window's next pixel, in column dx of row dy, joins the first k.
  lemma MinFirstNext(a: Image, h: nat, w: nat, y: int, x: int, dy: int, dx: int)
    requires Sized(a, h, w) && Interior(y, x, h, w) && -1 <= dy <= 1 && -1 <= dx <= 1
    ensures var k, p := 3 * dy + dx + 4, a[y + dy][x + dx];
            MinFirst(a, h, w, y, x, k + 1)
            == if p < MinFirst(a, h, w, y, x, k) then p else MinFirst(a, h, w, y, x, k)
  {
    var k := 3 * dy + dx + 4;
    assert k / 3 == dy + 1 && k % 3 == dx + 1;
  }

  lemma ErosionEnds(a: Image, h: nat, w: nat, y: int, x: int)
    requires Sized(a, h, w) && Interior(y, x, h, w)
    ensures MinFirst(a, h, w, y, x, 0) == 255 && MinFirst(a, h, w, y, x, 9) == Erosion(a, h, w, y, x)
  {
  }

  method WindowMin(src: array2<Pixel>, y: int, x: int) returns (v: Pixel)
    requires Interior(y, x, src.Length0, src.Length1)
    ensures v == Erosion(Rows(src), src.Length0, src.Length1, y, x)
  {
    hide MinFirst, Erosion, Rows;
    ghost var a, h, w := Rows(src), src.Length0, src.Length1;
    v := 255;
    ErosionEnds(a, h, w, y, x);
    for dy := -1 to 2
      invariant v == MinFirst(a, h, w, y, x, 3 * dy + 3)
    {
      for dx := -1 to 2
        invariant v == MinFirst(a, h, w, y, x, 3 * dy + dx + 4)
      {
        MinFirstNext(a, h, w, y, x, dy, dx);
        if src[y + dy, x + dx] < v {
          v := src[y + dy, x + dx];
        }
      }
    }
  }

  // The window's next pixel, in column dx of row dy, joins the first k.
  lemma MaxFirstNext(a: Image, h: nat, w: nat, y: int, x: int, dy: int, dx: int)
    requires Sized(a, h, w) && Interior(y, x, h, w) && -1 <= dy <= 1 && -1 <= dx <= 1
    ensures var k, p := 3 * dy + dx + 4, a[y + dy][x + dx];
            MaxFirst(a, h, w, y, x, k + 1)
            == if p > MaxFirst(a, h, w, y, x, k) then p else MaxFirst(a, h, w, y, x, k)
  {
    var k := 3 * dy + dx + 4;
    assert k / 3 == dy + 1 && k % 3 == dx + 1;
  }

  lemma DilationEnds(a: Image, h: nat, w: nat, y: int, x: int)
    requires Sized(a, h, w) && Interior(y, x, h, w)
    ensures MaxFirst(a, h, w, y, x, 0) == 0 && MaxFirst(a, h, w, y, x, 9) == Dilation(a, h, w, y, x)
  {
  }

  method WindowMax(src: array2<Pixel>, y: int, x: int) returns (v: Pixel)
    requires Interior(y, x, src.Length0, src.Length1)
    ensures v == Dilation(Rows(src), src.Length0, src.Length1, y, x)
  {
    hide MaxFirst, Dilation, Rows;
    ghost var a, h, w := Rows(src), src.Length0, src.Length1;
    v := 0;
    DilationEnds(a, h, w, y, x);
    for dy := -1 to 2
      invariant v == MaxFirst(a, h, w, y, x, 3 * dy + 3)
    {
      for dx := -1 to 2
        invariant v == MaxFirst(a, h, w, y, x, 3 * dy + dx + 4)
      {
        MaxFirstNext(a, h, w, y, x, dy, dx);
        if src[y + dy, x + dx] > v {
          v := src[y + dy, x + dx];
        }
      }
    }
  }

  ghost function Filter(least: bool, a: Image, h: nat, w: nat, y: int, x: int): Pixel
    requires Sized(a, h, w) && Interior(y, x, h, w)
  {
    if least then Erosion(a, h, w, y, x) else Dilation(a, h, w, y, x)
  }

  ghost predicate Before(v: int, u: int, y: int, x: int) {
    v < y || (v == y && u < x)
  }

  // The image that the window at (y, x) is taken from: the source, or, in place, the destination d as
  // far as it is filtered and the rest as it was.
  ghost function Seen(inPlace: bool, d: Image, a: Image, h: nat, w: nat, y: int, x: int): (r: Image)
    requires Sized(d, h, w) && Sized(a, h, w)
    ensures Sized(r, h, w)
    ensures !inPlace ==> r == a
    ensures inPlace ==> forall v, u :: 0 <= v < h && 0 <= u < w ==>
                          r[v][u] == if Before(v, u, y, x) then d[v][u] else a[v][u]
  {
    if inPlace then
      seq(h, v requires 0 <= v < h => seq(w, u requires 0 <= u < w => if Before(v, u, y, x) then d[v][u] else a[v][u]))
    else a
  }

  // Every interior pixel reached before (y, x) in row order is filtered, every other is as it was.
  ghost predicate FilteredTo(least: bool, inPlace: bool, d: Image, a: Image, was: Image, h: nat, w: nat, y: int, x: int) {
    && Sized(d, h, w) && Sized(a, h, w) && Sized(was, h, w) && (inPlace ==> a == was)
    && forall v, u :: 0 <= v < h && 0 <= u < w ==>
         d[v][u] == if Before(v, u, y, x) && Interior(v, u, h, w)
                    then Filter(least, Seen(inPlace, d, a, h, w, v, u), h, w, v, u) else was[v][u]
  }

  ghost function Painted(d: Image, y: nat, x: nat, p: Pixel): (r: Image)
    requires y < |d| && x < |d[y]|
    ensures |r| == |d| && |r[y]| == |d[y]| && forall v :: 0 <= v < |d| && v != y ==> r[v] == d[v]
    ensures r[y][x] == p && forall u :: 0 <= u < |d[y]| && u != x ==> r[y][u] == d[y][u]
  {
    var row: seq<Pixel> := d[y][x := p];
    d[y := row]
  }

  lemma FilterStarts(least: bool, inPlace: bool, a: Image, was: Image, h: nat, w: nat)
    requires Sized(a, h, w) && Sized(was, h, w) && (inPlace ==> a == was)
    ensures FilteredTo(least, inPlace, was, a, was, h, w, 1, 0)
  {
    hide Filter, Seen;
  }

  // Positions with no interior pixel in between.
  lemma FilterSkips(least: bool, inPlace: bool, d: Image, a: Image, was: Image, h: nat, w: nat,
                    y: int, x: int, y': int, x': int)
    requires FilteredTo(least, inPlace, d, a, was, h, w, y, x)
    requires || (y' == y && x == 0 && x' == 1)
             || (y' == y + 1 && x >= w - 1 && x' == 0)
             || (y >= h - 1 && x == 0 && y' == h && x' == 0)
    ensures FilteredTo(least, inPlace, d, a, was, h, w, y', x')
  {
    hide Filter, Seen;
  }

  // In place, the image is what the window sees.
  lemma SeenNow(least: bool, inPlace: bool, d: Image, a: Image, was: Image, h: nat, w: nat, y: int, x: int)
    requires FilteredTo(least, inPlace, d, a, was, h, w, y, x)
    ensures Sized(d, h, w) && Sized(a, h, w)
    ensures Seen(inPlace, d, a, h, w, y, x) == if inPlace then d else a
  {
    hide Filter, Seen;
    if inPlace {
      SameImage(Seen(true, d, a, h, w, y, x), d, h, w);
    }
  }

  lemma SameImage(a: Image, b: Image, h: nat, w: nat)
    requires Sized(a, h, w) && Sized(b, h, w)
    requires forall v, u :: 0 <= v < h && 0 <= u < w ==> a[v][u] == b[v][u]
    ensures a == b
  {
    forall v | 0 <= v < h ensures a[v] == b[v] {
      assert forall u :: 0 <= u < w ==> a[v][u] == b[v][u];
    }
  }

  lemma FilterStep(least: bool, inPlace: bool, d: Image, a: Image, was: Image, h: nat, w: nat, y: int, x: int, p: Pixel)
    requires FilteredTo(least, inPlace, d, a, was, h, w, y, x) && Interior(y, x, h, w)
    requires p == Filter(least, Seen(inPlace, d, a, h, w, y, x), h, w, y, x)
    ensures FilteredTo(least, inPlace, Painted(d, y, x, p), a, was, h, w, y, x + 1)
  {
    hide Filter, Seen;
    var e := Painted(d, y, x, p);
    assert Sized(e, h, w);
    forall v, u | 0 <= v < h && 0 <= u < w && (Before(v, u, y, x) || (v == y && u == x))
      ensures Seen(inPlace, e, a, h, w, v, u) == Seen(inPlace, d, a, h, w, v, u)
    {
      if inPlace {
        SameImage(Seen(true, e, a, h, w, v, u), Seen(true, d, a, h, w, v, u), h, w);
      }
    }
  }

  // What a write to the array does to its rows.
  lemma RowsSet(dst: array2<Pixel>, d: Image, y: int, x: int, p: Pixel)
    requires d == Rows(dst) && Interior(y, x, dst.Length0, dst.Length1)
    ensures Sized(Painted(d, y, x, p), dst.Length0, dst.Length1)
    ensures forall v, u :: 0 <= v < dst.Length0 && 0 <= u < dst.Length1 ==>
              Painted(d, y, x, p)[v][u] == if v == y && u == x then p else dst[v, u]
  {
  }

  lemma RowsAre(dst: array2<Pixel>, e: Image)
    requires Sized(e, dst.Length0, dst.Length1)
    requires forall v, u :: 0 <= v < dst.Length0 && 0 <= u < dst.Length1 ==> e[v][u] == dst[v, u]
    ensures Rows(dst) == e
  {
    SameImage(Rows(dst), e, dst.Length0, dst.Length1);
  }

  method Erode3(src: array2<Pixel>, dst: array2<Pixel>)
    requires src.Length0 == dst.Length0 && src.Length1 == dst.Length1
    modifies dst
    ensures FilteredTo(true, src == dst, Rows(dst), old(Rows(src)), old(Rows(dst)), dst.Length0, dst.Length1,
                       dst.Length0, 0)
  {
    hide Rows, FilteredTo, Seen, Erosion, Dilation;
    var h, w := src.Length0, src.Length1;
    ghost var a, was := Rows(src), Rows(dst);
    FilterStarts(true, src == dst, a, was, h, w);
    var y := 1;
    while y < h - 1
      invariant 1 <= y && (src != dst ==> Rows(src) == a)
      invariant FilteredTo(true, src == dst, Rows(dst), a, was, h, w, y, 0)
    {
      var x := 1;
      FilterSkips(true, src == dst, Rows(dst), a, was, h, w, y, 0, y, 1);
      while x < w - 1
        invariant 1 <= x && (src != dst ==> Rows(src) == a)
        invariant FilteredTo(true, src == dst, Rows(dst), a, was, h, w, y, x)
      {
        ghost var d := Rows(dst);
        SeenNow(true, src == dst, d, a, was, h, w, y, x);
        var v := WindowMin(src, y, x);
        FilterStep(true, src == dst, d, a, was, h, w, y, x, v);
        RowsSet(dst, d, y, x, v);
        dst[y, x] := v;
        RowsAre(dst, Painted(d, y, x, v));
        x := x + 1;
      }
      FilterSkips(true, src == dst, Rows(dst), a, was, h, w, y, x, y + 1, 0);
      y := y + 1;
    }
    FilterSkips(true, src == dst, Rows(dst), a, was, h, w, y, 0, h, 0);
  }

  method Dilate3(src: array2<Pixel>, dst: array2<Pixel>)
    requires src.Length0 == dst.Length0 && src.Length1 == dst.Length1
    modifies dst
    ensures FilteredTo(false, src == dst, Rows(dst), old(Rows(src)), old(Rows(dst)), dst.Length0, dst.Length1,
                       dst.Length0, 0)
  {
    hide Rows, FilteredTo, Seen, Erosion, Dilation;
    var h, w := src.Length0, src.Length1;
    ghost var a, was := Rows(src), Rows(dst);
    FilterStarts(false, src == dst, a, was, h, w);
    var y := 1;
    while y < h - 1
      invariant 1 <= y && (src != dst ==> Rows(src) == a)
      invariant FilteredTo(false, src == dst, Rows(dst), a, was, h, w, y, 0)
    {
      var x := 1;
      FilterSkips(false, src == dst, Rows(dst), a, was, h, w, y, 0, y, 1);
      while x < w - 1
        invariant 1 <= x && (src != dst ==> Rows(src) == a)
        invariant FilteredTo(false, src == dst, Rows(dst), a, was, h, w, y, x)
      {
        ghost var d := Rows(dst);
        SeenNow(false, src == dst, d, a, was, h, w, y, x);
        var v := WindowMax(src, y, x);
        FilterStep(false, src == dst, d, a, was, h, w, y, x, v);
        RowsSet(dst, d, y, x, v);
        dst[y, x] := v;
        RowsAre(dst, Painted(d, y, x, v));
        x := x + 1;
      }
      FilterSkips(false, src == dst, Rows(dst), a, was, h, w, y, x, y + 1, 0);
      y := y + 1;
    }
    FilterSkips(false, src == dst, Rows(dst), a, was, h, w, y, 0, h, 0);
  }

  // ---------------------------------------------------------------------------------------
  // Bounds: erosion is the greatest lower bound of the window, dilation the least upper bound
  // ---------------------------------------------------------------------------------------

  lemma {:induction false} MinFirstBound(a: Image, h: nat, w: nat, y: int, x: int, k: nat, v: Pixel)
    requires Sized(a, h, w) && Interior(y, x, h, w) && k <= 9
    ensures v <= MinFirst(a, h, w, y, x, k) <==> forall i :: 0 <= i < k ==> v <= a[y - 1 + i / 3][x - 1 + i % 3]
  {
    if k > 0 {
      MinFirstBound(a, h, w, y, x, k - 1, v);
    }
  }

  lemma ErosionBound(a: Image, h: nat, w: nat, y: int, x: int, v: Pixel)
    requires Sized(a, h, w) && Interior(y, x, h, w)
    ensures v <= Erosion(a, h, w, y, x) <==> forall y', x' :: Near(y, x, y', x') ==> v <= a[y'][x']
  {
    MinFirstBound(a, h, w, y, x, 9, v);
    if v <= Erosion(a, h, w, y, x) {
      forall y', x' | Near(y, x, y', x') ensures v <= a[y'][x'] {
        var i := 3 * (y' - y + 1) + (x' - x + 1);
        assert y' == y - 1 + i / 3 && x' == x - 1 + i % 3;
      }
    }
    if forall y', x' :: Near(y, x, y', x') ==> v <= a[y'][x'] {
      forall i | 0 <= i < 9 ensures v <= a[y - 1 + i / 3][x - 1 + i % 3] {
        assert Near(y, x, y - 1 + i / 3, x - 1 + i % 3);
      }
    }
  }

  lemma ComplementSized(a: Image, h: nat, w: nat)
    requires Sized(a, h, w)
    ensures Sized(Complement(a), h, w)
    ensures forall y, x :: 0 <= y < h && 0 <= x < w ==> Complement(a)[y][x] == 255 - a[y][x]
  {
  }

  lemma {:induction false} DualFirst(a: Image, h: nat, w: nat, y: int, x: int, k: nat)
    requires Sized(a, h, w) && Sized(Complement(a), h, w) && Interior(y, x, h, w) && k <= 9
    ensures MinFirst(Complement(a), h, w, y, x, k) == 255 - MaxFirst(a, h, w, y, x, k)
  {
    if k > 0 {
      ComplementSized(a, h, w);
      DualFirst(a, h, w, y, x, k - 1);
    }
  }

  // Eroding the negative is the negative of dilating.
  lemma Duality(a: Image, h: nat, w: nat, y: int, x: int)
    requires Sized(a, h, w) && Interior(y, x, h, w)
    ensures Sized(Complement(a), h, w)
    ensures Erosion(Complement(a), h, w, y, x) == 255 - Dilation(a, h, w, y, x)
  {
    ComplementSized(a, h, w);
    DualFirst(a, h, w, y, x, 9);
  }

  lemma DilationBound(a: Image, h: nat, w: nat, y: int, x: int, v: Pixel)
    requires Sized(a, h, w) && Interior(y, x, h, w)
    ensures Dilation(a, h, w, y, x) <= v <==> forall y', x' :: Near(y, x, y', x') ==> a[y'][x'] <= v
  {
    var c := Complement(a);
    Duality(a, h, w, y, x);
    ComplementSized(a, h, w);
    ErosionBound(c, h, w, y, x, 255 - v);
    assert forall y', x' :: Near(y, x, y', x') ==> c[y'][x'] == 255 - a[y'][x'];
    if Dilation(a, h, w, y, x) <= v {
      forall y', x' | Near(y, x, y', x') ensures a[y'][x'] <= v {
        assert 255 - v <= c[y'][x'];
      }
    }
  }

  ghost predicate BorderIs(a: Image, h: nat, w: nat, c: Pixel)
    requires Sized(a, h, w)
  {
    forall y, x :: 0 <= y < h && 0 <= x < w && !Interior(y, x, h, w) ==> a[y][x] == c
  }

  // Dilation and erosion are adjoint: dilating a stays below b just when a stays below b eroded.
  lemma Adjunction(a: Image, b: Image, h: nat, w: nat)
    requires Sized(a, h, w) && Sized(b, h, w) && BorderIs(a, h, w, 0) && BorderIs(b, h, w, 255)
    ensures (forall y, x :: Interior(y, x, h, w) ==> Dilation(a, h, w, y, x) <= b[y][x])
       <==> (forall y, x :: Interior(y, x, h, w) ==> a[y][x] <= Erosion(b, h, w, y, x))
  {
    if forall y, x :: Interior(y, x, h, w) ==> Dilation(a, h, w, y, x) <= b[y][x] {
      forall y, x | Interior(y, x, h, w) ensures a[y][x] <= Erosion(b, h, w, y, x) {
        ErosionBound(b, h, w, y, x, a[y][x]);
        forall y', x' | Near(y, x, y', x') ensures a[y][x] <= b[y'][x'] {
          if Interior(y', x', h, w) {
            DilationBound(a, h, w, y', x', b[y'][x']);
            assert Near(y', x', y, x);
          }
        }
      }
    }
    if forall y, x :: Interior(y, x, h, w) ==> a[y][x] <= Erosion(b, h, w, y, x) {
      forall y, x | Interior(y, x, h, w) ensures Dilation(a, h, w, y, x) <= b[y][x] {
        DilationBound(a, h, w, y, x, b[y][x]);
        forall y', x' | Near(y, x, y', x') ensures a[y'][x'] <= b[y][x] {
          if Interior(y', x', h, w) {
            ErosionBound(b, h, w, y', x', a[y'][x']);
            assert Near(y', x', y, x);
          }
        }
      }
    }
  }

  // ---------------------------------------------------------------------------------------
  // Filtering in place
  // ---------------------------------------------------------------------------------------

  ghost predicate Below(a: Image, b: Image, h: nat, w: nat)
    requires Sized(a, h, w) && Sized(b, h, w)
  {
    forall y, x :: 0 <= y < h && 0 <= x < w ==> a[y][x] <= b[y][x]
  }

  lemma ErosionMonotone(a: Image, b: Image, h: nat, w: nat, y: int, x: int)
    requires Sized(a, h, w) && Sized(b, h, w) && Below(a, b, h, w) && Interior(y, x, h, w)
    ensures Erosion(a, h, w, y, x) <= Erosion(b, h, w, y, x) && Erosion(a, h, w, y, x) <= a[y][x]
  {
    var v := Erosion(a, h, w, y, x);
    hide Erosion;
    ErosionBound(a, h, w, y, x, v);
    ErosionBound(b, h, w, y, x, v);
    assert Near(y, x, y, x);
  }

  // Erosion in place darkens every pixel at least as much as erosion into another image.
  lemma InPlaceErodesMore(d: Image, was: Image, h: nat, w: nat, y: int, x: int)
    requires FilteredTo(true, true, d, was, was, h, w, h, 0) && Interior(y, x, h, w)
    ensures d[y][x] <= Erosion(was, h, w, y, x)
  {
    hide Erosion, Seen;
    InPlaceBelow(d, was, h, w);
    ErosionMonotone(Seen(true, d, was, h, w, y, x), was, h, w, y, x);
  }

  lemma InPlaceBelow(d: Image, was: Image, h: nat, w: nat)
    requires FilteredTo(true, true, d, was, was, h, w, h, 0)
    ensures Sized(d, h, w) && Sized(was, h, w) && Below(d, was, h, w)
    ensures forall y, x :: Interior(y, x, h, w) ==> Below(Seen(true, d, was, h, w, y, x), was, h, w)
  {
    hide Erosion, Seen;
    forall y, x | 0 <= y < h && 0 <= x < w ensures d[y][x] <= was[y][x] {
      if Interior(y, x, h, w) {
        var seen := Seen(true, d, was, h, w, y, x);
        ErosionMonotone(seen, seen, h, w, y, x);
      }
    }
  }

  lemma DilationMonotone(a: Image, b: Image, h: nat, w: nat, y: int, x: int)
    requires Sized(a, h, w) && Sized(b, h, w) && Below(b, a, h, w) && Interior(y, x, h, w)
    ensures Dilation(a, h, w, y, x) >= Dilation(b, h, w, y, x) && Dilation(a, h, w, y, x) >= a[y][x]
  {
    var v := Dilation(a, h, w, y, x);
    hide Dilation;
    DilationBound(a, h, w, y, x, v);
    DilationBound(b, h, w, y, x, v);
    assert Near(y, x, y, x);
  }

  // And dilation in place brightens every pixel at least as much as dilation into another image.
  lemma InPlaceDilatesMore(d: Image, was: Image, h: nat, w: nat, y: int, x: int)
    requires FilteredTo(false, true, d, was, was, h, w, h, 0) && Interior(y, x, h, w)
    ensures d[y][x] >= Dilation(was, h, w, y, x)
  {
    hide Dilation, Seen;
    InPlaceAbove(d, was, h, w);
    DilationMonotone(Seen(true, d, was, h, w, y, x), was, h, w, y, x);
  }

  lemma InPlaceAbove(d: Image, was: Image, h: nat, w: nat)
    requires FilteredTo(false, true, d, was, was, h, w, h, 0)
    ensures Sized(d, h, w) && Sized(was, h, w) && Below(was, d, h, w)
    ensures forall y, x :: Interior(y, x, h, w) ==> Below(was, Seen(true, d, was, h, w, y, x), h, w)
  {
    hide Dilation, Seen;
    forall y, x | 0 <= y < h && 0 <= x < w ensures d[y][x] >= was[y][x] {
      if Interior(y, x, h, w) {
        var seen := Seen(true, d, was, h, w, y, x);
        DilationMonotone(seen, seen, h, w, y, x);
      }
    }
  }

  // ---------------------------------------------------------------------------------------
  // Binarising before or after a filter is the same
  // ---------------------------------------------------------------------------------------

  lemma BinarySized(a: Image, h: nat, w: nat, t: Pixel)
    requires Sized(a, h, w)
    ensures Sized(BinaryImage(a, t), h, w)
    ensures forall y, x :: 0 <= y < h && 0 <= x < w ==> BinaryImage(a, t)[y][x] == Threshold(t, a[y][x])
  {
  }

  lemma {:induction false} BinaryFirst(a: Image, h: nat, w: nat, y: int, x: int, k: nat, t: Pixel)
    requires Sized(a, h, w) && Sized(BinaryImage(a, t), h, w) && Interior(y, x, h, w) && k <= 9
    ensures k > 0 ==>
      MinFirst(BinaryImage(a, t), h, w, y, x, k) == Threshold(t, MinFirst(a, h, w, y, x, k))
    ensures MaxFirst(BinaryImage(a, t), h, w, y, x, k) == Threshold(t, MaxFirst(a, h, w, y, x, k))
  {
    if k > 0 {
      BinarySized(a, h, w, t);
      BinaryFirst(a, h, w, y, x, k - 1, t);
    }
  }

  lemma BinarisationCommutes(a: Image, h: nat, w: nat, y: int, x: int, t: Pixel)
    requires Sized(a, h, w) && Interior(y, x, h, w)
    ensures Sized(BinaryImage(a, t), h, w)
    ensures Erosion(BinaryImage(a, t), h, w, y, x) == Threshold(t, Erosion(a, h, w, y, x))
    ensures Dilation(BinaryImage(a, t), h, w, y, x) == Threshold(t, Dilation(a, h, w, y, x))
  {
    BinarySized(a, h, w, t);
    BinaryFirst(a, h, w, y, x, 9, t);
  }
}
