/** Bounding boxes over exact reals and the two intersection-over-union computations. */
module Boxes {

  datatype Box = Box(left: real, top: real, width: real, height: real)

  ghost predicate Proper(b: Box) {
    b.width >= 0.0 && b.height >= 0.0
  }

  function Max(a: real, b: real): real {
    if a < b then b else a
  }

  function Min(a: real, b: real): real {
    if b < a then b else a
  }

  /** overlap1D of the face parser: swaps the intervals so that the first starts first. */
  function Overlap1D(x1min: real, x1max: real, x2min: real, x2max: real): real {
    if x1min > x2min then (if x2max < x1min then 0.0 else Min(x2max, x1max) - x1min)
    else (if x1max < x2min then 0.0 else Min(x1max, x2max) - x2min)
  }

  /** computeIoU of the face parser. */
  function Iou(a: Box, b: Box): real {
    var overlap := Overlap1D(a.left, a.left + a.width, b.left, b.left + b.width)
                   * Overlap1D(a.top, a.top + a.height, b.top, b.top + b.height);
    var u := a.width * a.height + b.width * b.height - overlap;
    if u == 0.0 then 0.0 else overlap / u
  }

  /** compute_iou of the frame-events probe. */
  function ProbeIou(a: Box, b: Box): real {
    var width := Max(0.0, Min(a.left + a.width, b.left + b.width) - Max(a.left, b.left));
    var height := Max(0.0, Min(a.top + a.height, b.top + b.height) - Max(a.top, b.top));
    var inter := width * height;
    var u := a.width * a.height + b.width * b.height - inter;
    if u <= 0.0 then 0.0 else inter / u
  }

  function Common(a: real, w: real, b: real, v: real): real {
    Max(0.0, Min(a + w, b + v) - Max(a, b))
  }

  lemma OverlapIsCommon(a: real, w: real, b: real, v: real)
    requires w >= 0.0 && v >= 0.0
    ensures Overlap1D(a, a + w, b, b + v) == Common(a, w, b, v)
  {
  }

  lemma CommonBounds(a: real, w: real, b: real, v: real)
    requires w >= 0.0 && v >= 0.0
    ensures 0.0 <= Common(a, w, b, v) <= w && Common(a, w, b, v) <= v && Common(a, w, b, v) == Common(b, v, a, w)
    ensures Common(a, w, b, v) == w == v && w > 0.0 ==> a == b
  {
  }

  lemma ProductMono(x: real, y: real, z: real, w: real)
    requires 0.0 <= x <= z && 0.0 <= y <= w
    ensures 0.0 <= x * y <= z * w
  {
    assert x * y <= z * y;
    assert z * y <= z * w;
  }

  /** A product of smaller factors that reaches a positive product has the same factors. */
  lemma ProductTight(x: real, y: real, z: real, w: real)
    requires 0.0 <= x <= z && 0.0 <= y <= w && x * y == z * w && z * w > 0.0
    ensures x == z && y == w
  {
    assert z > 0.0 && w > 0.0;
    ProductMono(x, y, z, y);
    ProductMono(z, y, z, w);
    assert z * (w - y) == 0.0;
    assert y == w;
    assert (z - x) * w == 0.0;
  }

  ghost function Area(b: Box): real {
    b.width * b.height
  }

  ghost function CommonArea(a: Box, b: Box): real {
    Common(a.left, a.width, b.left, b.width) * Common(a.top, a.height, b.top, b.height)
  }

  lemma CommonAreaBounds(a: Box, b: Box)
    requires Proper(a) && Proper(b)
    ensures 0.0 <= CommonArea(a, b) <= Area(a) && CommonArea(a, b) <= Area(b)
    ensures CommonArea(a, b) == CommonArea(b, a)
  {
    hide Common;
    CommonBounds(a.left, a.width, b.left, b.width);
    CommonBounds(a.top, a.height, b.top, b.height);
    var x, y := Common(a.left, a.width, b.left, b.width), Common(a.top, a.height, b.top, b.height);
    ProductMono(x, y, a.width, a.height);
    ProductMono(x, y, b.width, b.height);
  }

  lemma IouIsCommonArea(a: Box, b: Box)
    requires Proper(a) && Proper(b)
    ensures
      var c := CommonArea(a, b);
      var u := Area(a) + Area(b) - c;
      u >= 0.0 && Iou(a, b) == ProbeIou(a, b) == if u == 0.0 then 0.0 else c / u
  {
    CommonAreaBounds(a, b);
    FaceIou(a, b);
    ProbeIouMeans(a, b);
    hide Iou, ProbeIou, CommonArea;
  }

  lemma FaceIou(a: Box, b: Box)
    requires Proper(a) && Proper(b)
    ensures Iou(a, b) == var u := Area(a) + Area(b) - CommonArea(a, b); if u == 0.0 then 0.0 else CommonArea(a, b) / u
  {
    hide Overlap1D, Common;
    OverlapIsCommon(a.left, a.width, b.left, b.width);
    OverlapIsCommon(a.top, a.height, b.top, b.height);
  }

  lemma ProbeIouMeans(a: Box, b: Box)
    ensures
      var u := Area(a) + Area(b) - CommonArea(a, b);
      ProbeIou(a, b) == if u <= 0.0 then 0.0 else CommonArea(a, b) / u
  {
    hide Max, Min;
  }

  /** For boxes of nonnegative size the parser and the probe compute the same value. */
  lemma IousAgree(a: Box, b: Box)
    requires Proper(a) && Proper(b)
    ensures Iou(a, b) == ProbeIou(a, b)
  {
    IouIsCommonArea(a, b);
  }

  lemma IouSymmetric(a: Box, b: Box)
    requires Proper(a) && Proper(b)
    ensures Iou(a, b) == Iou(b, a)
  {
    hide Iou, ProbeIou, CommonArea;
    IouIsCommonArea(a, b);
    IouIsCommonArea(b, a);
    CommonAreaBounds(a, b);
  }

  lemma QuotientRange(c: real, u: real)
    requires 0.0 <= c <= u && u > 0.0
    ensures 0.0 <= c / u <= 1.0 && (c / u == 1.0 <==> c == u)
  {
    var q := c / u;
    assert q * u == c;
    assert (q - 1.0) * u == c - u;
    assert q <= 1.0 && q >= 0.0;
  }

  lemma IouRange(a: Box, b: Box)
    requires Proper(a) && Proper(b)
    ensures 0.0 <= Iou(a, b) <= 1.0
  {
    hide Iou, ProbeIou, CommonArea, Area;
    IouIsCommonArea(a, b);
    CommonAreaBounds(a, b);
    var c := CommonArea(a, b);
    var u := Area(a) + Area(b) - c;
    if u != 0.0 {
      QuotientRange(c, u);
    }
  }

  /** Boxes of positive area overlap completely exactly when they are the same box. */
  lemma IouOneIff(a: Box, b: Box)
    requires Proper(a) && Proper(b) && Area(a) > 0.0 && Area(b) > 0.0
    ensures Iou(a, b) == 1.0 <==> a == b
  {
    hide Iou, ProbeIou, Common;
    IouIsCommonArea(a, b);
    CommonAreaBounds(a, b);
    var c := CommonArea(a, b);
    QuotientRange(c, Area(a) + Area(b) - c);
    CommonBounds(a.left, a.width, b.left, b.width);
    CommonBounds(a.top, a.height, b.top, b.height);
    if c == Area(a) + Area(b) - c {
      assert c == Area(a) == Area(b);
      var x, y := Common(a.left, a.width, b.left, b.width), Common(a.top, a.height, b.top, b.height);
      ProductTight(x, y, a.width, a.height);
      ProductTight(x, y, b.width, b.height);
    }
    if a == b {
      SelfCommon(a.left, a.width);
      SelfCommon(a.top, a.height);
    }
  }

  lemma SelfCommon(a: real, w: real)
    requires w >= 0.0
    ensures Common(a, w, a, w) == w
  {
  }
}
