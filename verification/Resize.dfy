/** Subsampling of a row-major image by an integer scale. */
module Resize {
  import opened Otsu
  import opened Binarise

  // Where the k-th pixel of the small image comes from.
  function Pick(k: nat, srcWidth: nat, scale: nat): nat
    requires scale > 0 && srcWidth / scale > 0
  {
    At(scale * (k % (srcWidth / scale)), scale * (k / (srcWidth / scale)), srcWidth)
  }

  // Every pixel taken lies inside the large image.
  lemma PickInside(k: nat, srcHeight: nat, srcWidth: nat, scale: nat)
    requires scale > 0 && srcWidth / scale > 0
    requires k < At(0, srcHeight / scale, srcWidth / scale)
    ensures Pick(k, srcWidth, scale) < At(0, srcHeight, srcWidth)
  {
    var w := srcWidth / scale;
    var i, j := k / w, k % w;
    RowBelow(k, w, srcHeight / scale);
    Scaled(i, srcHeight, scale);
    Scaled(j, srcWidth, scale);
    hide At;
    RowMajor(scale * j, scale * i, srcWidth, srcHeight);
  }

  lemma RowBelow(k: nat, w: nat, h: nat)
    requires w > 0 && k < At(0, h, w)
    ensures k / w < h
  {
  }

  lemma Scaled(i: nat, n: nat, scale: nat)
    requires scale > 0 && i < n / scale
    ensures scale * i < n
  {
    assert scale * i <= scale * (n / scale - 1) <= n - scale;
  }

  function Resized(s: seq<Pixel>, srcHeight: nat, srcWidth: nat, scale: nat): (r: seq<Pixel>)
    requires scale > 0 && At(0, srcHeight, srcWidth) <= |s|
    ensures |r| == At(0, srcHeight / scale, srcWidth / scale)
  {
    seq(At(0, srcHeight / scale, srcWidth / scale),
        k requires 0 <= k < At(0, srcHeight / scale, srcWidth / scale) =>
          PickDefined(k, srcHeight, srcWidth, scale);
          s[Pick(k, srcWidth, scale)])
  }

  lemma PickDefined(k: nat, srcHeight: nat, srcWidth: nat, scale: nat)
    requires scale > 0 && k < At(0, srcHeight / scale, srcWidth / scale)
    ensures srcWidth / scale > 0
    ensures Pick(k, srcWidth, scale) < At(0, srcHeight, srcWidth)
  {
    if srcWidth / scale > 0 {
      PickInside(k, srcHeight, srcWidth, scale);
    }
  }

  // The pixel in column j of row i of the small image.
  lemma PickAt(i: nat, j: nat, srcWidth: nat, scale: nat)
    requires scale > 0 && j < srcWidth / scale
    ensures Pick(At(j, i, srcWidth / scale), srcWidth, scale) == At(scale * j, scale * i, srcWidth)
  {
    var w := srcWidth / scale;
    DivideRow(i, j, w);
  }

  lemma DivideRow(i: nat, j: nat, w: nat)
    requires j < w
    ensures At(j, i, w) / w == i && At(j, i, w) % w == j
  {
    var k := w * i + j;
    assert k == w * (k / w) + k % w;
    if k / w < i { assert w * (k / w) <= w * (i - 1); }
    if k / w > i { assert w * (k / w) >= w * (i + 1); }
  }

  // No pixel is taken from before the place it goes to.
  lemma PickAhead(i: nat, j: nat, srcWidth: nat, scale: nat)
    requires scale > 0
    ensures At(j, i, srcWidth / scale) <= At(scale * j, scale * i, srcWidth)
  {
    AtLeast(i, scale);
    AtLeast(j, scale);
    Quotient(srcWidth, scale);
    hide At;
    AtMonotone(j, i, srcWidth / scale, scale * j, scale * i, srcWidth);
  }

  lemma AtLeast(i: nat, scale: nat)
    requires scale > 0
    ensures i <= scale * i
  {
  }

  lemma Quotient(n: nat, scale: nat)
    requires scale > 0
    ensures n / scale <= n
  {
    var q: nat := n / scale;
    Products(n, q, scale, n % scale);
  }

  lemma Products(n: nat, q: nat, scale: nat, r: nat)
    requires scale > 0 && n == scale * q + r
    ensures q <= n
  {
    AtLeast(q, scale);
  }

  lemma AtMonotone(x: nat, y: nat, w: nat, x': nat, y': nat, w': nat)
    requires x <= x' && y <= y' && w <= w'
    ensures At(x, y, w) <= At(x', y', w')
  {
    assert w * y <= w' * y <= w' * y';
  }

  // The small image may take the large one's place.
  method ImgResize(src: array<Pixel>, dst: array<Pixel>, srcHeight: nat, srcWidth: nat, scale: nat)
    requires scale > 0
    requires At(0, srcHeight, srcWidth) <= src.Length
    requires At(0, srcHeight / scale, srcWidth / scale) <= dst.Length
    modifies dst
    ensures dst[..At(0, srcHeight / scale, srcWidth / scale)] == Resized(old(src[..]), srcHeight, srcWidth, scale)
    ensures dst[At(0, srcHeight / scale, srcWidth / scale)..] == old(dst[At(0, srcHeight / scale, srcWidth / scale)..])
  {
    hide *;
    var h, w := srcHeight / scale, srcWidth / scale;
    ghost var s, n := src[..], At(0, h, w);
    ghost var small, rest := Resized(s, srcHeight, srcWidth, scale), dst[n..];
    RowMajor(0, 0, w, h);
    AheadStarts(s);
    for i := 0 to h
      invariant At(0, i, w) <= n && Ahead(src[..], s, At(0, i, w))
      invariant dst[..At(0, i, w)] == small[..At(0, i, w)] && dst[n..] == rest
    {
      for j := 0 to w
        invariant At(j, i, w) <= n && Ahead(src[..], s, At(j, i, w))
        invariant dst[..At(j, i, w)] == small[..At(j, i, w)] && dst[n..] == rest
      {
        RowMajor(j, i, w, h);
        ResizedAt(s, srcHeight, srcWidth, scale, i, j);
        PickAhead(i, j, srcWidth, scale);
        ghost var k, d, from := At(j, i, w), dst[..], src[..];
        AheadAt(from, s, k, At(scale * j, scale * i, srcWidth));
        AheadStep(from, s, k, small[k]);
        dst[At(j, i, w)] := src[At(scale * j, scale * i, srcWidth)];
        assert dst[..] == d[k := small[k]];
        assert dst[..k + 1] == small[..k + 1];
        assert src[..] == from || src[..] == from[k := small[k]];
        RowMajor(j + 1, i, w, h);
      }
      RowMajor(0, i, w, h);
      RowMajor(0, i + 1, w, h);
    }
  }

  // The pixels from place k on are still those of s.
  ghost predicate Ahead(now: seq<Pixel>, s: seq<Pixel>, k: nat) {
    |now| == |s| && forall p :: k <= p < |s| ==> now[p] == s[p]
  }

  lemma AheadStarts(s: seq<Pixel>)
    ensures Ahead(s, s, 0)
  {
  }

  lemma AheadAt(now: seq<Pixel>, s: seq<Pixel>, k: nat, p: nat)
    requires Ahead(now, s, k) && k <= p < |s|
    ensures p < |now| && now[p] == s[p]
  {
  }

  lemma AheadStep(now: seq<Pixel>, s: seq<Pixel>, k: nat, c: Pixel)
    requires Ahead(now, s, k)
    ensures Ahead(now, s, k + 1) && (k < |now| ==> Ahead(now[k := c], s, k + 1))
  {
  }

  lemma ResizedAt(s: seq<Pixel>, srcHeight: nat, srcWidth: nat, scale: nat, i: nat, j: nat)
    requires scale > 0 && At(0, srcHeight, srcWidth) <= |s| && i < srcHeight / scale && j < srcWidth / scale
    ensures At(scale * j, scale * i, srcWidth) < |s|
    ensures At(j, i, srcWidth / scale) < |Resized(s, srcHeight, srcWidth, scale)|
    ensures Resized(s, srcHeight, srcWidth, scale)[At(j, i, srcWidth / scale)] == s[At(scale * j, scale * i, srcWidth)]
  {
    hide At;
    RowMajor(j, i, srcWidth / scale, srcHeight / scale);
    PickAt(i, j, srcWidth, scale);
    PickDefined(At(j, i, srcWidth / scale), srcHeight, srcWidth, scale);
  }

  // Binarising the large image and subsampling it is the same as the other way round.
  lemma BinarisationCommutes(s: seq<Pixel>, srcHeight: nat, srcWidth: nat, scale: nat, t: Pixel)
    requires scale > 0 && At(0, srcHeight, srcWidth) <= |s|
    ensures Resized(Binary(s, t), srcHeight, srcWidth, scale) == Binary(Resized(s, srcHeight, srcWidth, scale), t)
  {
    hide At, Pick;
    forall k | 0 <= k < At(0, srcHeight / scale, srcWidth / scale)
      ensures Resized(Binary(s, t), srcHeight, srcWidth, scale)[k]
           == Binary(Resized(s, srcHeight, srcWidth, scale), t)[k]
    {
      PickDefined(k, srcHeight, srcWidth, scale);
    }
  }
}
