/**
 * Integer geometry of the mosaic: where every image sits on the virtual
 * canvas, the legal pan range, the per-axis clip arithmetic of the
 * compositor, the hit test and the export window.  All of this is exact
 * integer arithmetic in main.c; here it is stated on unbounded `int`.
 */
module Geometry {

  /** A position on the virtual canvas (main.c's `Coord`). */
  datatype Coord = Coord(x: int, y: int)

  /** A closed range [lo, hi] of legal pan positions on one axis (`xbounds`, `ybounds`). */
  datatype Span = Span(lo: int, hi: int)

  /** An axis-aligned window of the virtual canvas: top-left corner and size. */
  datatype Window = Window(origin: Coord, width: int, height: int)

  function Min(a: int, b: int): int { if a <= b then a else b }

  function Max(a: int, b: int): int { if a >= b then a else b }

  /** GLib's CLAMP(x, low, high): `high` when x exceeds it, else `low` when x is below it, else x. */
  function Clamp(x: int, lo: int, hi: int): (r: int)
    ensures lo <= hi ==> lo <= r <= hi
    ensures lo <= x <= hi ==> r == x
    ensures lo > hi ==> r == hi || r == lo
  {
    if x > hi then hi else if x < lo then lo else x
  }

  /** The least element of a non-empty sequence, folding Min from the left. */
  function SeqMin(s: seq<int>): int
    requires |s| >= 1
    decreases |s|
  {
    if |s| == 1 then s[0] else Min(SeqMin(s[..|s| - 1]), s[|s| - 1])
  }

  /** The greatest element of a non-empty sequence, folding Max from the left. */
  function SeqMax(s: seq<int>): int
    requires |s| >= 1
    decreases |s|
  {
    if |s| == 1 then s[0] else Max(SeqMax(s[..|s| - 1]), s[|s| - 1])
  }

  /** SeqMin and SeqMax are a lower and an upper bound of the sequence, and both are elements of it. */
  lemma {:induction false} SeqExtremes(s: seq<int>)
    requires |s| >= 1
    ensures forall i :: 0 <= i < |s| ==> SeqMin(s) <= s[i] <= SeqMax(s)
    ensures exists i :: 0 <= i < |s| && SeqMin(s) == s[i]
    ensures exists i :: 0 <= i < |s| && SeqMax(s) == s[i]
    decreases |s|
  {
    if |s| > 1 {
      var p, last := s[..|s| - 1], s[|s| - 1];
      SeqExtremes(p);
      assert SeqMin(s) == Min(SeqMin(p), last) && SeqMax(s) == Max(SeqMax(p), last);
      forall i | 0 <= i < |s|
        ensures SeqMin(s) <= s[i] <= SeqMax(s)
      {
        if i < |p| {
          assert s[i] == p[i];
        }
      }
      var a :| 0 <= a < |p| && SeqMin(p) == p[a];
      var b :| 0 <= b < |p| && SeqMax(p) == p[b];
      assert s[a] == p[a] && s[b] == p[b];
      var lo := if SeqMin(s) == last then |s| - 1 else a;
      var hi := if SeqMax(s) == last then |s| - 1 else b;
      assert SeqMin(s) == s[lo] && SeqMax(s) == s[hi];
    }
  }

  lemma SeqMinSnoc(s: seq<int>, v: int)
    requires |s| >= 1
    ensures SeqMin(s + [v]) == Min(SeqMin(s), v)
  {
    assert (s + [v])[..|s|] == s;
  }

  lemma SeqMaxSnoc(s: seq<int>, v: int)
    requires |s| >= 1
    ensures SeqMax(s + [v]) == Max(SeqMax(s), v)
  {
    assert (s + [v])[..|s|] == s;
  }

  /** The x coordinates of a sequence of positions. */
  function Xs(cs: seq<Coord>): (xs: seq<int>)
    ensures |xs| == |cs|
    ensures forall i :: 0 <= i < |cs| ==> xs[i] == cs[i].x
  {
    seq(|cs|, i requires 0 <= i < |cs| => cs[i].x)
  }

  /** The y coordinates of a sequence of positions. */
  function Ys(cs: seq<Coord>): (ys: seq<int>)
    ensures |ys| == |cs|
    ensures forall i :: 0 <= i < |cs| ==> ys[i] == cs[i].y
  {
    seq(|cs|, i requires 0 <= i < |cs| => cs[i].y)
  }

  // ---------------------------------------------------------------------
  // Layout engine (regenerate_coords)
  // ---------------------------------------------------------------------

  /**
   * The stacking direction in force after a run of junctions: +1 at the
   * start, flipped by every fold, i.e. (-1) to the number of folds.
   */
  function Direction(folds: seq<bool>): (d: int)
    ensures d == 1 || d == -1
  {
    if multiset(folds)[true] % 2 == 0 then 1 else -1
  }

  lemma DirectionSnoc(folds: seq<bool>, b: bool)
    ensures Direction(folds + [b]) == if b then -Direction(folds) else Direction(folds)
  {
    assert multiset(folds + [b]) == multiset(folds) + multiset{b};
  }

  /**
   * Where image k+1 goes, given image k at `c`: an unfolded junction moves one
   * image height along the stacking direction `dir`; a folded one moves one
   * image width to the left.  The junction's offset is added in both cases.
   */
  function NextCoord(c: Coord, fold: bool, dir: int, off: Coord, w: int, h: int): Coord
  {
    if fold then Coord(c.x - w + off.x, c.y + off.y)
    else Coord(c.x + off.x, c.y + dir * h + off.y)
  }

  /**
   * The placement of all images, from the fold flag and offset of each
   * junction (one fewer junction than images).
   */
  function Coords(folds: seq<bool>, offsets: seq<Coord>, w: int, h: int): (cs: seq<Coord>)
    requires |folds| == |offsets|
    ensures |cs| == |folds| + 1
    ensures cs[0] == Coord(0, 0)
    decreases |folds|
  {
    if folds == [] then [Coord(0, 0)]
    else
      var k := |folds| - 1;
      var prev := Coords(folds[..k], offsets[..k], w, h);
      prev + [NextCoord(prev[k], folds[k], Direction(folds[..k]), offsets[k], w, h)]
  }

  /** The first m+1 images depend only on the first m junctions. */
  lemma {:induction false} CoordsPrefix(folds: seq<bool>, offsets: seq<Coord>, w: int, h: int, m: nat)
    requires |folds| == |offsets| && m <= |folds|
    ensures Coords(folds, offsets, w, h)[..m + 1] == Coords(folds[..m], offsets[..m], w, h)
    decreases |folds|
  {
    if m < |folds| {
      var k := |folds| - 1;
      assert folds[..k][..m] == folds[..m];
      assert offsets[..k][..m] == offsets[..m];
      CoordsPrefix(folds[..k], offsets[..k], w, h, m);
      assert Coords(folds, offsets, w, h)[..m + 1] == Coords(folds[..k], offsets[..k], w, h)[..m + 1];
    } else {
      assert folds[..m] == folds;
      assert offsets[..m] == offsets;
    }
  }

  /**
   * The step between consecutive images: image 0 is at the origin and image
   * i+1 is image i moved by junction i, with the direction given by the
   * number of folds before junction i.
   */
  lemma CoordsStep(folds: seq<bool>, offsets: seq<Coord>, w: int, h: int, i: nat)
    requires |folds| == |offsets| && i < |folds|
    ensures
      var cs := Coords(folds, offsets, w, h);
      cs[i + 1] == NextCoord(cs[i], folds[i], Direction(folds[..i]), offsets[i], w, h)
  {
    var cs := Coords(folds, offsets, w, h);
    CoordsPrefix(folds, offsets, w, h, i + 1);
    CoordsPrefix(folds, offsets, w, h, i);
    assert folds[..i + 1][..i] == folds[..i];
    assert offsets[..i + 1][..i] == offsets[..i];
    assert cs[i + 1] == Coords(folds[..i + 1], offsets[..i + 1], w, h)[i + 1];
    assert cs[i] == Coords(folds[..i], offsets[..i], w, h)[i];
  }

  /** The two-image layouts: unfolded stacks downwards, folded steps one width to the left. */
  lemma TwoImageLayouts(w: int, h: int)
    ensures Coords([false], [Coord(0, 0)], w, h) == [Coord(0, 0), Coord(0, h)]
    ensures Coords([true], [Coord(0, 0)], w, h) == [Coord(0, 0), Coord(-w, 0)]
  {
    assert Direction([]) == 1;
  }

  /** Changing junction k (its fold flag or its offset) never moves images 0..k. */
  lemma EditDoesNotMoveEarlierImages(folds: seq<bool>, offsets: seq<Coord>, w: int, h: int,
                                     k: nat, b: bool, off: Coord)
    requires |folds| == |offsets| && k < |folds|
    ensures Coords(folds[k := b], offsets[k := off], w, h)[..k + 1] == Coords(folds, offsets, w, h)[..k + 1]
  {
    CoordsPrefix(folds, offsets, w, h, k);
    CoordsPrefix(folds[k := b], offsets[k := off], w, h, k);
    assert folds[k := b][..k] == folds[..k];
    assert offsets[k := off][..k] == offsets[..k];
  }

  // ---------------------------------------------------------------------
  // Pan bounds (regenerate_bounding_box)
  // ---------------------------------------------------------------------

  /**
   * The pan range on one axis for images at positions `ps` of size `dim` seen
   * through a viewport of size `vdim`: from the least `p - dim/2` to the
   * greatest `p + dim/2 + dim - vdim`.  `dim` is an image size, never negative,
   * so `/` agrees with C's truncating division.
   */
  function AxisBounds(ps: seq<int>, dim: int, vdim: int): (b: Span)
    requires |ps| >= 1 && dim >= 0
  {
    Span(SeqMin(ps) - dim / 2, SeqMax(ps) + dim / 2 + dim - vdim)
  }

  /**
   * The pan range is exactly the min/max taken over the images: every
   * image's contribution lies within it and both ends are attained.
   */
  lemma AxisBoundsAttained(ps: seq<int>, dim: int, vdim: int)
    requires |ps| >= 1 && dim >= 0
    ensures var b := AxisBounds(ps, dim, vdim);
      forall i :: 0 <= i < |ps| ==> b.lo <= ps[i] - dim / 2 && ps[i] + dim / 2 + dim - vdim <= b.hi
    ensures var b := AxisBounds(ps, dim, vdim);
      exists i :: 0 <= i < |ps| && b.lo == ps[i] - dim / 2
    ensures var b := AxisBounds(ps, dim, vdim);
      exists i :: 0 <= i < |ps| && b.hi == ps[i] + dim / 2 + dim - vdim
  {
    SeqExtremes(ps);
    var i :| 0 <= i < |ps| && SeqMin(ps) == ps[i];
    var k :| 0 <= k < |ps| && SeqMax(ps) == ps[k];
  }

  /**
   * With a viewport no wider than the image plus both half-widths (the
   * session's viewport, image plus 2*(dim/3) or 2*(dim/5), is such), the pan
   * range is never empty.
   */
  lemma AxisBoundsNonEmpty(ps: seq<int>, dim: int, vdim: int)
    requires |ps| >= 1 && dim >= 0 && vdim <= dim + 2 * (dim / 2)
    ensures AxisBounds(ps, dim, vdim).lo <= AxisBounds(ps, dim, vdim).hi
  {
    SeqExtremes(ps);
  }

  // ---------------------------------------------------------------------
  // Compositor clip arithmetic (populate_view)
  // ---------------------------------------------------------------------

  /**
   * The clip of one image against the sampled window on one axis: the first
   * source pixel to copy, where it lands in the output, and the source pixel
   * one past the last copied.
   */
  datatype AxisClip = AxisClip(srcStart: int, destStart: int, srcEnd: int)
  {
    /** The number of pixels copied on this axis (`w` or `h` in main.c). */
    function Length(): int { srcEnd - srcStart }
  }

  /** Clip an image at `pos` of size `dim` against the window [look, look+vdim). */
  function ClipAxis(pos: int, dim: int, look: int, vdim: int): (c: AxisClip)
    ensures dim > 0 && vdim > 0 ==> (c.Length() > 0 <==> pos < look + vdim && look < pos + dim)
    ensures 0 <= c.srcStart && c.srcEnd <= dim
    ensures 0 <= c.destStart && c.destStart + c.Length() <= vdim
    ensures c.destStart - c.srcStart == pos - look
  {
    var diffTl := pos - look;
    var diffBr := diffTl + dim - vdim;
    AxisClip(-Min(0, diffTl), Max(0, diffTl), dim - Max(0, diffBr))
  }

  /**
   * Output pixel k of the window is inside the image exactly when it lies in
   * the clipped destination range, and then it shows source pixel
   * `srcStart + k - destStart`.
   */
  lemma ClipPixel(pos: int, dim: int, look: int, vdim: int, k: int)
    requires 0 <= k < vdim
    ensures var c := ClipAxis(pos, dim, look, vdim);
      (pos <= look + k < pos + dim) <==> (c.destStart <= k < c.destStart + c.Length())
    ensures var c := ClipAxis(pos, dim, look, vdim);
      look + k - pos == c.srcStart + k - c.destStart
  {
  }

  /** The integer part of the zoomed-out render: how many image sizes are added on each side. */
  const ZoomFactor: int := 10

  /**
   * The window of the canvas the compositor samples: the viewport itself at
   * 1:1, or the viewport grown by ZoomFactor image sizes on every side when
   * zoomed out.
   */
  function SampledWindow(look: Coord, vw: int, vh: int, w: int, h: int, zoomedOut: bool): (win: Window)
    ensures !zoomedOut ==> win == Window(look, vw, vh)
    ensures 2 * win.origin.x + win.width == 2 * look.x + vw
    ensures 2 * win.origin.y + win.height == 2 * look.y + vh
    ensures zoomedOut ==> win.origin.x == look.x - ZoomFactor * w && win.origin.y == look.y - ZoomFactor * h
  {
    if zoomedOut then
      Window(Coord(look.x - ZoomFactor * w, look.y - ZoomFactor * h),
             vw + 2 * ZoomFactor * w, vh + 2 * ZoomFactor * h)
    else Window(look, vw, vh)
  }

  /** An image at `c` of size w by h intersects the window. */
  predicate Overlaps(c: Coord, w: int, h: int, win: Window)
  {
    c.x < win.origin.x + win.width && win.origin.x < c.x + w &&
    c.y < win.origin.y + win.height && win.origin.y < c.y + h
  }

  // ---------------------------------------------------------------------
  // Hit test (viewport_index)
  // ---------------------------------------------------------------------

  /** The image rectangle lies strictly inside the viewport: touching an edge does not count. */
  predicate StrictlyInside(c: Coord, w: int, h: int, look: Coord, vw: int, vh: int)
  {
    look.x < c.x && c.x + w < look.x + vw &&
    look.y < c.y && c.y + h < look.y + vh
  }

  /** The first index from `from` on whose image lies strictly inside the viewport, or -1. */
  function HitFrom(cs: seq<Coord>, w: int, h: int, look: Coord, vw: int, vh: int, from: nat): (r: int)
    ensures r == -1 || from <= r < |cs|
    ensures r == -1 <==> forall j :: from <= j < |cs| ==> !StrictlyInside(cs[j], w, h, look, vw, vh)
    ensures r >= 0 ==> StrictlyInside(cs[r], w, h, look, vw, vh)
    ensures r >= 0 ==> forall j :: from <= j < r ==> !StrictlyInside(cs[j], w, h, look, vw, vh)
    decreases |cs| - from
  {
    if from >= |cs| then -1
    else if StrictlyInside(cs[from], w, h, look, vw, vh) then from
    else HitFrom(cs, w, h, look, vw, vh, from + 1)
  }

  /** The image the viewport is looking at: the lowest index strictly inside it, or -1. */
  function HitIndex(cs: seq<Coord>, w: int, h: int, look: Coord, vw: int, vh: int): (r: int)
    ensures -1 <= r < |cs|
    ensures r == -1 <==> forall j :: 0 <= j < |cs| ==> !StrictlyInside(cs[j], w, h, look, vw, vh)
    ensures r >= 0 ==> StrictlyInside(cs[r], w, h, look, vw, vh) &&
                       forall j :: 0 <= j < r ==> !StrictlyInside(cs[j], w, h, look, vw, vh)
  {
    HitFrom(cs, w, h, look, vw, vh, 0)
  }

  // ---------------------------------------------------------------------
  // Export window (the 'p' command)
  // ---------------------------------------------------------------------

  /** The tight bounding box of all images: from the least corner to the greatest far edge. */
  function ExportWindow(cs: seq<Coord>, w: int, h: int): (win: Window)
    requires |cs| >= 1
    ensures forall i :: 0 <= i < |cs| ==>
      win.origin.x <= cs[i].x && cs[i].x + w <= win.origin.x + win.width &&
      win.origin.y <= cs[i].y && cs[i].y + h <= win.origin.y + win.height
    ensures exists i :: 0 <= i < |cs| && cs[i].x == win.origin.x
    ensures exists i :: 0 <= i < |cs| && cs[i].y == win.origin.y
    ensures exists i :: 0 <= i < |cs| && cs[i].x + w == win.origin.x + win.width
    ensures exists i :: 0 <= i < |cs| && cs[i].y + h == win.origin.y + win.height
  {
    SeqExtremes(Xs(cs));
    SeqExtremes(Ys(cs));
    var x0, y0 := SeqMin(Xs(cs)), SeqMin(Ys(cs));
    Window(Coord(x0, y0), SeqMax(Xs(cs)) + w - x0, SeqMax(Ys(cs)) + h - y0)
  }

  /** Rendered through the export window, every image is drawn whole: nothing of it is clipped. */
  lemma {:induction false} ExportDrawsEveryImageWhole(cs: seq<Coord>, w: int, h: int, i: nat)
    requires |cs| >= 1 && i < |cs|
    ensures var win := ExportWindow(cs, w, h);
      ClipAxis(cs[i].x, w, win.origin.x, win.width) == AxisClip(0, cs[i].x - win.origin.x, w)
    ensures var win := ExportWindow(cs, w, h);
      ClipAxis(cs[i].y, h, win.origin.y, win.height) == AxisClip(0, cs[i].y - win.origin.y, h)
  {
    SeqExtremes(Xs(cs));
    SeqExtremes(Ys(cs));
    assert Xs(cs)[i] == cs[i].x && Ys(cs)[i] == cs[i].y;
  }
}
