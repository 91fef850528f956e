/**
 * What the 1:1 compositor puts on the screen, stated pixel by pixel and
 * independently of the clip arithmetic: every output pixel shows the
 * highest-index image covering that point of the canvas, or opaque black.
 */
module Render {
  import opened Geometry

  /** A decoded raster, row-major: `img[y][x]` is one RGBA pixel. */
  type Image = seq<seq<int>>

  /** The fill colour of `gdk_pixbuf_fill(view, 0x000000ff)`: opaque black. */
  const Black: int := 0x0000_00ff

  /** The raster has `h` rows of `w` pixels each. */
  predicate WellFormed(img: Image, w: int, h: int)
  {
    |img| == h && forall r :: 0 <= r < |img| ==> |img[r]| == w
  }

  predicate AllWellFormed(imgs: seq<Image>, w: int, h: int)
  {
    forall i :: 0 <= i < |imgs| ==> WellFormed(imgs[i], w, h)
  }

  /** Canvas point (gx, gy) lies on the image placed at `c`. */
  predicate Covers(c: Coord, w: int, h: int, gx: int, gy: int)
  {
    c.x <= gx < c.x + w && c.y <= gy < c.y + h
  }

  /**
   * The colour of canvas point (gx, gy) once images 0..k-1 have been drawn
   * in index order over a black background.
   */
  function Covering(imgs: seq<Image>, cs: seq<Coord>, w: int, h: int, k: nat, gx: int, gy: int): int
    requires k <= |imgs| && k <= |cs| && AllWellFormed(imgs, w, h)
  {
    if k == 0 then Black
    else if Covers(cs[k - 1], w, h, gx, gy) then imgs[k - 1][gy - cs[k - 1].y][gx - cs[k - 1].x]
    else Covering(imgs, cs, w, h, k - 1, gx, gy)
  }

  /** Covering is black where none of images 0..k-1 lies. */
  lemma {:induction false} CoveringUncovered(imgs: seq<Image>, cs: seq<Coord>, w: int, h: int, k: nat,
                                             gx: int, gy: int)
    requires k <= |imgs| && k <= |cs| && AllWellFormed(imgs, w, h)
    requires forall i :: 0 <= i < k ==> !Covers(cs[i], w, h, gx, gy)
    ensures Covering(imgs, cs, w, h, k, gx, gy) == Black
  {
    if k > 0 {
      CoveringUncovered(imgs, cs, w, h, k - 1, gx, gy);
    }
  }

  /**
   * Covering is the topmost rule: where image j lies and no later image
   * below k does, the point shows image j's pixel.
   */
  lemma {:induction false} CoveringIsTopmost(imgs: seq<Image>, cs: seq<Coord>, w: int, h: int, k: nat,
                                             gx: int, gy: int, j: nat)
    requires k <= |imgs| && k <= |cs| && AllWellFormed(imgs, w, h)
    requires j < k && Covers(cs[j], w, h, gx, gy)
    requires forall i :: j < i < k ==> !Covers(cs[i], w, h, gx, gy)
    ensures Covering(imgs, cs, w, h, k, gx, gy) == imgs[j][gy - cs[j].y][gx - cs[j].x]
  {
    if j < k - 1 {
      CoveringIsTopmost(imgs, cs, w, h, k - 1, gx, gy, j);
    }
  }

  /** The indices below k, in increasing order, of the images that intersect the window. */
  function OverlappingBelow(cs: seq<Coord>, w: int, h: int, win: Window, k: nat): seq<nat>
    requires k <= |cs|
  {
    if k == 0 then []
    else OverlappingBelow(cs, w, h, win, k - 1) + (if Overlaps(cs[k - 1], w, h, win) then [k - 1] else [])
  }

  /**
   * OverlappingBelow lists exactly the images below k that meet the window,
   * each once, in increasing index order.
   */
  lemma {:induction false} OverlappingBelowExact(cs: seq<Coord>, w: int, h: int, win: Window, k: nat)
    requires k <= |cs|
    ensures var r := OverlappingBelow(cs, w, h, win, k);
      forall i: nat :: i in r <==> i < k && Overlaps(cs[i], w, h, win)
    ensures var r := OverlappingBelow(cs, w, h, win, k);
      forall a, b :: 0 <= a < b < |r| ==> r[a] < r[b]
  {
    if k > 0 {
      OverlappingBelowExact(cs, w, h, win, k - 1);
      var prev := OverlappingBelow(cs, w, h, win, k - 1);
      var tail: seq<nat> := if Overlaps(cs[k - 1], w, h, win) then [k - 1] else [];
      assert OverlappingBelow(cs, w, h, win, k) == prev + tail;
      forall a | 0 <= a < |prev|
        ensures prev[a] < k - 1
      {
        assert prev[a] in prev;
      }
    }
  }
}
