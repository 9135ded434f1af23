/** Histogram of a row-major image and its binarisation at the Otsu threshold. */
module Binarise {
  import opened Otsu

  // Bin sizes as the byte-wide histogram holds them.
  ghost function Wrapped(s: seq<Pixel>): (h: seq<nat>)
    ensures |h| == 256
  {
    seq(256, v requires 0 <= v < 256 => multiset(s)[v] % 256)
  }

  function Threshold(t: Pixel, p: Pixel): Pixel {
    if p > t then 255 else 0
  }

  function Binary(s: seq<Pixel>, t: Pixel): seq<Pixel> {
    seq(|s|, k requires 0 <= k < |s| => Threshold(t, s[k]))
  }

  // Place of column x, row y in a row-major image of the given width; the image of that height
  // ends at At(0, height, width).
  function At(x: nat, y: nat, width: nat): nat {
    width * y + x
  }

  // The places of an image, row after row, are consecutive and fill the buffer's first At(0, height, width).
  lemma RowMajor(x: nat, y: nat, width: nat, height: nat)
    ensures At(0, 0, width) == 0
    ensures At(x + 1, y, width) == At(x, y, width) + 1 && At(width, y, width) == At(0, y + 1, width)
    ensures x <= width && y < height ==> At(x, y, width) <= At(0, height, width)
    ensures x < width && y < height ==> At(x, y, width) < At(0, height, width)
  {
    if y < height {
      assert width * (y + 1) <= width * height;
    }
  }

  // What the search answers for histogram h.
  ghost predicate IsOtsu(h: seq<nat>, t: Pixel)
    requires |h| == 256
  {
    if Varied(h) then IsBest(h, t) else t == Fallback(h)
  }

  ghost predicate HistogramOf(h: seq<nat>, s: seq<Pixel>) {
    |h| == 256 && forall v :: 0 <= v < 256 ==> h[v] == multiset(s)[v] % 256
  }

  lemma HistogramStart(h: seq<nat>, s: seq<Pixel>)
    requires |h| == 256 && forall v :: 0 <= v < 256 ==> h[v] == 0
    ensures HistogramOf(h, s[..0])
  {
  }

  lemma HistogramStep(h: seq<nat>, s: seq<Pixel>, k: nat)
    requires k < |s| && HistogramOf(h, s[..k])
    ensures HistogramOf(h[s[k] := (h[s[k]] + 1) % 256], s[..k + 1])
  {
    assert s[..k + 1] == s[..k] + [s[k]];
    assert multiset(s[..k + 1]) == multiset(s[..k])[s[k] := multiset(s[..k])[s[k]] + 1];
  }

  lemma OtsuIs(h: seq<nat>, t: Pixel)
    requires |h| == 256
    requires (Varied(h) ==> IsBest(h, t)) && (!Varied(h) ==> t == Fallback(h))
    ensures IsOtsu(h, t)
  {
  }

  lemma HistogramIs(h: seq<nat>, s: seq<Pixel>)
    requires HistogramOf(h, s)
    ensures h == Wrapped(s)
  {
  }

  // The first k pixels binarised, the others up to n as they were, and the rest untouched.
  ghost predicate Half(dst: seq<Pixel>, src: seq<Pixel>, was: seq<Pixel>, rest: seq<Pixel>, k: int, t: Pixel) {
    && 0 <= k <= |was| <= |src| && |was| <= |dst|
    && (forall m :: 0 <= m < k ==> dst[m] == Threshold(t, was[m]))
    && (forall m :: k <= m < |was| ==> src[m] == was[m])
    && dst[|was|..] == rest
  }

  lemma HalfStart(dst: seq<Pixel>, src: seq<Pixel>, was: seq<Pixel>, rest: seq<Pixel>, t: Pixel)
    requires |was| <= |src| && |was| <= |dst| && src[..|was|] == was && dst[|was|..] == rest
    ensures Half(dst, src, was, rest, 0, t)
  {
  }

  lemma HalfStep(dst: seq<Pixel>, src: seq<Pixel>, src': seq<Pixel>, was: seq<Pixel>, rest: seq<Pixel>, k: int, t: Pixel)
    requires Half(dst, src, was, rest, k, t) && k < |was|
    requires src' == src || src' == src[k := Threshold(t, src[k])]
    ensures Half(dst[k := Threshold(t, src[k])], src', was, rest, k + 1, t)
  {
  }

  lemma HalfDone(dst: seq<Pixel>, src: seq<Pixel>, was: seq<Pixel>, rest: seq<Pixel>, t: Pixel)
    requires Half(dst, src, was, rest, |was|, t)
    ensures dst == Binary(was, t) + rest
  {
    assert dst == dst[..|was|] + dst[|was|..];
    assert dst[..|was|] == Binary(was, t);
  }

  class ImgProc {
    var threshold: Pixel
    var fixThreshold: Pixel
    const histogram: array<nat>

    ghost predicate Valid()
      reads this
    {
      histogram.Length == 256
    }

    constructor (fix: Pixel)
      ensures Valid() && fresh(histogram) && threshold == fixThreshold == fix
    {
      threshold, fixThreshold := fix, fix;
      histogram := new nat[256];
    }

    method OstuThreshold(img: array<Pixel>, height: nat, width: nat) returns (t: Pixel)
      requires histogram.Length == 256 && At(0, height, width) <= img.Length && img as object != histogram
      modifies histogram
      ensures histogram[..] == Wrapped(img[..At(0, height, width)])
      ensures IsOtsu(histogram[..], t)
    {
      hide *;
      for j := 0 to 256
        invariant forall v :: 0 <= v < j ==> histogram[v] == 0
      {
        histogram[j] := 0;
      }
      ghost var s := img[..];
      HistogramStart(histogram[..], s);
      RowMajor(0, 0, width, height);
      for j := 0 to height
        invariant 0 <= At(0, j, width) <= At(0, height, width)
        invariant img[..] == s && HistogramOf(histogram[..], s[..At(0, j, width)])
      {
        for i := 0 to width
          invariant 0 <= At(i, j, width) <= At(0, height, width)
          invariant img[..] == s && HistogramOf(histogram[..], s[..At(i, j, width)])
        {
          RowMajor(i, j, width, height);
          ghost var h := histogram[..];
          HistogramStep(h, s, At(i, j, width));
          var p := img[At(i, j, width)];
          histogram[p] := (histogram[p] + 1) % 256;
          assert histogram[..] == h[p := (h[p] + 1) % 256];
          RowMajor(i + 1, j, width, height);
        }
        RowMajor(0, j, width, height);
        RowMajor(0, j + 1, width, height);
      }
      HistogramIs(histogram[..], s[..At(0, height, width)]);
      t := SolveOtsu(histogram);
      OtsuIs(histogram[..], t);
    }

    // Modes 0 and 1 search for the threshold, mode 2 takes the fixed one, any other keeps the last.
    method GrayToBinary(src: array<Pixel>, dst: array<Pixel>, height: nat, width: nat, mode: nat)
      requires Valid() && At(0, height, width) <= src.Length && At(0, height, width) <= dst.Length
      requires src as object != histogram && dst as object != histogram
      modifies this`threshold, histogram, dst
      ensures Valid()
      ensures mode <= 1 ==> IsOtsu(Wrapped(old(src[..At(0, height, width)])), threshold)
      ensures mode == 2 ==> threshold == fixThreshold
      ensures mode > 2 ==> threshold == old(threshold)
      ensures dst[..] == Binary(old(src[..At(0, height, width)]), threshold) + old(dst[At(0, height, width)..])
    {
      hide Half, At, Binary, Wrapped, IsOtsu;
      ghost var was, rest := src[..At(0, height, width)], dst[At(0, height, width)..];
      if mode == 0 || mode == 1 {
        threshold := OstuThreshold(src, height, width);
      } else if mode == 2 {
        threshold := fixThreshold;
      }
      ghost var t := threshold;
      HalfStart(dst[..], src[..], was, rest, t);
      RowMajor(0, 0, width, height);
      for i := 0 to height
        invariant threshold == t && At(0, i, width) <= At(0, height, width)
        invariant Half(dst[..], src[..], was, rest, At(0, i, width), t)
      {
        for j := 0 to width
          invariant threshold == t && At(j, i, width) <= At(0, height, width)
          invariant Half(dst[..], src[..], was, rest, At(j, i, width), t)
        {
          RowMajor(j, i, width, height);
          ghost var k, d := At(j, i, width), dst[..];
          ghost var c := Threshold(t, src[k]);
          assert c == if src[k] > threshold then 255 else 0;
          HalfStep(d, src[..], if src == dst then d[k := c] else src[..], was, rest, k, t);
          dst[At(j, i, width)] := if src[At(j, i, width)] > threshold then 255 else 0;
          assert dst[..] == d[k := c];
          RowMajor(j + 1, i, width, height);
        }
        RowMajor(0, i, width, height);
        RowMajor(0, i + 1, width, height);
      }
      HalfDone(dst[..], src[..], was, rest, t);
    }
  }

  // ---------------------------------------------------------------------------------------
  // Which images keep both colours
  // ---------------------------------------------------------------------------------------

  ghost predicate BothColours(s: seq<Pixel>) {
    0 in s && 255 in s
  }

  lemma BinaryColours(s: seq<Pixel>, t: Pixel)
    ensures 0 in Binary(s, t) <==> exists p :: p in s && p <= t
    ensures 255 in Binary(s, t) <==> exists p :: p in s && p > t
  {
    var b := Binary(s, t);
    assert forall k :: 0 <= k < |s| ==> b[k] == Threshold(t, s[k]) && s[k] in s;
    forall p | p in s ensures Threshold(t, p) in b {
      var k :| 0 <= k < |s| && s[k] == p;
      assert b[k] == Threshold(t, p);
    }
    assert forall c :: c in b ==> exists k :: 0 <= k < |s| && b[k] == c;
  }

  // A best threshold has a used bin on either side.
  lemma BestSeparates(h: seq<nat>, t: int)
    requires IsBest(h, t)
    ensures exists i, j :: 0 <= i <= t < j < |h| && h[i] > 0 && h[j] > 0
  {
    CountZero(h, 0, t + 1);
    CountZero(h, t + 1, |h|);
  }

  lemma UsedBins(s: seq<Pixel>)
    ensures forall v: Pixel :: Wrapped(s)[v] > 0 ==> v in s
  {
  }

  // The binary image shows both colours whenever two wrapped bins are in use. Otherwise it does when
  // only bin 255 reads as empty of the top two and a pixel of 255 stands beside a darker one, or when
  // both read as empty and a black pixel stands beside a brighter one.
  lemma BothColoursIff(s: seq<Pixel>, t: Pixel)
    requires IsOtsu(Wrapped(s), t)
    ensures var h := Wrapped(s);
            BothColours(Binary(s, t)) <==>
              || Varied(h)
              || (h[254] > 0 && h[255] == 0 && 255 in s && exists p :: p in s && p < 255)
              || (h[254] == 0 && h[255] == 0 && 0 in s && exists p :: p in s && p > 0)
  {
    BinaryColours(s, t);
    UsedBins(s);
    FallbackIs(Wrapped(s));
    hide Varied, Fallback, Wrapped, Binary, IsBest;
    if Varied(Wrapped(s)) {
      BestSeparates(Wrapped(s), t);
    }
  }

  lemma FallbackIs(h: seq<nat>)
    requires |h| == 256
    ensures !Varied(h) ==> Fallback(h) == if h[255] > 0 then 255 else if h[254] > 0 then 254 else 0
  {
  }

  // With one bin in use the search is meant to answer its grey value; it does so only for three.
  lemma SingleColourIff(h: seq<nat>, c: Pixel)
    requires |h| == 256 && h[c] > 0 && forall k :: 0 <= k < 256 && k != c ==> h[k] == 0
    ensures !Varied(h)
    ensures Fallback(h) == c <==> c == 0 || c == 254 || c == 255
  {
  }

  // A full 120x160 image of 9728 pixels of grey 10 and 9472 of grey 200, both multiples of 256, wraps
  // to an empty histogram and comes out in one colour.
  lemma WrapLosesBlack()
    ensures var s: seq<Pixel> := seq(120 * 160, k => if k < 9728 then 10 else 200);
            && !Varied(Wrapped(s))
            && forall t: Pixel :: IsOtsu(Wrapped(s), t) ==> !BothColours(Binary(s, t))
  {
    var s: seq<Pixel> := seq(120 * 160, k => if k < 9728 then 10 else 200);
    var a: seq<Pixel>, b: seq<Pixel> := seq(9728, _ => 10), seq(9472, _ => 200);
    assert s == a + b;
    OccursConstant(a, 10);
    OccursConstant(b, 200);
    assert multiset(s) == multiset(a) + multiset(b);
    assert forall v :: 0 <= v < 256 ==> Wrapped(s)[v] == 0;
    assert forall p :: p in s ==> p > 0;
    forall t: Pixel | IsOtsu(Wrapped(s), t) ensures !BothColours(Binary(s, t)) {
      BothColoursIff(s, t);
    }
  }

  lemma {:induction false} OccursConstant(s: seq<Pixel>, c: Pixel)
    requires forall p :: p in s ==> p == c
    ensures forall v: Pixel :: multiset(s)[v] == if v == c then |s| else 0
  {
    if s != [] {
      var k := |s| - 1;
      assert s == s[..k] + [s[k]];
      assert s[k] in s && forall p :: p in s[..k] ==> p in s;
      OccursConstant(s[..k], c);
    }
  }
}
