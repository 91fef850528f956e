/**
 * The running program's state (main.c's `Omni`) and the procedures that
 * update it in place: the layout engine, the bounding box, the compositor,
 * the hit test, the layout dump, the export and the key handler.  Every
 * method is proved against the pure definitions of Geometry, Render,
 * LayoutText and Commands.
 */
module Mosaic {
  import opened Wrappers
  import opened Geometry
  import opened Render
  import opened LayoutText
  import opened Commands

  /**
   * Row r, column c of `pic` shows canvas point (origin.x + c, origin.y + r)
   * as images 0..k-1 drawn in order over black leave it.
   */
  ghost predicate Displays(pic: array2<int>, imgs: seq<Image>, cs: seq<Coord>, w: int, h: int,
                           origin: Coord, k: nat)
    reads pic
  {
    k <= |imgs| && k <= |cs| && AllWellFormed(imgs, w, h) &&
    forall r, c :: 0 <= r < pic.Length0 && 0 <= c < pic.Length1 ==>
      pic[r, c] == Covering(imgs, cs, w, h, k, origin.x + c, origin.y + r)
  }

  /** gdk_pixbuf_fill: every pixel of `pic` becomes `colour`. */
  method Fill(pic: array2<int>, colour: int)
    modifies pic
    ensures forall r, c :: 0 <= r < pic.Length0 && 0 <= c < pic.Length1 ==> pic[r, c] == colour
  {
    var r := 0;
    while r < pic.Length0
      invariant 0 <= r <= pic.Length0
      invariant forall y, x :: 0 <= y < r && 0 <= x < pic.Length1 ==> pic[y, x] == colour
    {
      var c := 0;
      while c < pic.Length1
        invariant 0 <= c <= pic.Length1
        invariant forall y, x :: 0 <= y < r && 0 <= x < pic.Length1 ==> pic[y, x] == colour
        invariant forall x :: 0 <= x < c ==> pic[r, x] == colour
      {
        pic[r, c] := colour;
        c := c + 1;
      }
      r := r + 1;
    }
  }

  /**
   * gdk_pixbuf_copy_area: the w by h rectangle of `src` at (srcX, srcY) is
   * copied to `dest` at (destX, destY); the rest of `dest` is left alone.
   */
  method CopyArea(src: Image, srcX: int, srcY: int, w: int, h: int,
                  dest: array2<int>, destX: int, destY: int)
    requires 0 <= w && 0 <= h
    requires 0 <= srcY && srcY + h <= |src| && 0 <= srcX
    requires forall y :: srcY <= y < srcY + h ==> srcX + w <= |src[y]|
    requires 0 <= destY && destY + h <= dest.Length0 && 0 <= destX && destX + w <= dest.Length1
    modifies dest
    ensures forall r, c :: 0 <= r < dest.Length0 && 0 <= c < dest.Length1 ==>
      dest[r, c] == if destY <= r < destY + h && destX <= c < destX + w
                    then src[srcY + r - destY][srcX + c - destX]
                    else old(dest[r, c])
  {
    var y := 0;
    while y < h
      invariant 0 <= y <= h
      invariant forall r, c :: 0 <= r < dest.Length0 && 0 <= c < dest.Length1 ==>
        dest[r, c] == if destY <= r < destY + y && destX <= c < destX + w
                      then src[srcY + r - destY][srcX + c - destX]
                      else old(dest[r, c])
    {
      var x := 0;
      while x < w
        invariant 0 <= x <= w
        invariant forall r, c :: 0 <= r < dest.Length0 && 0 <= c < dest.Length1 ==>
          dest[r, c] == if (destY <= r < destY + y && destX <= c < destX + w) ||
                           (r == destY + y && destX <= c < destX + x)
                        then src[srcY + r - destY][srcX + c - destX]
                        else old(dest[r, c])
      {
        dest[destY + y, destX + x] := src[srcY + y][srcX + x];
        x := x + 1;
      }
      y := y + 1;
    }
  }

  /**
   * One turn of regenerate_coords's loop: from image i's position c0 and the
   * direction d0 before junction i, the loop body's updates reach image
   * i+1's position and the direction after junction i.
   */
  lemma LayoutStep(folds: seq<bool>, offsets: seq<Coord>, w: int, h: int, i: nat,
                   c0: Coord, d0: int, c1: Coord, d1: int)
    requires |folds| == |offsets| && i < |folds|
    requires c0 == Coords(folds, offsets, w, h)[i] && d0 == Direction(folds[..i])
    requires folds[i] ==> c1 == Coord(c0.x - w + offsets[i].x, c0.y + offsets[i].y) && d1 == d0 * -1
    requires !folds[i] ==> c1 == Coord(c0.x + offsets[i].x, c0.y + d0 * h + offsets[i].y) && d1 == d0
    ensures c1 == Coords(folds, offsets, w, h)[i + 1] && d1 == Direction(folds[..i + 1])
  {
    CoordsStep(folds, offsets, w, h, i);
    assert folds[..i + 1] == folds[..i] + [folds[i]];
    DirectionSnoc(folds[..i], folds[i]);
  }

  /** Extending a prefix by one element updates its extremes by one Min or Max. */
  lemma ExtremesStep(xs: seq<int>, i: nat)
    requires 1 <= i < |xs|
    ensures SeqMin(xs[..i + 1]) == Min(SeqMin(xs[..i]), xs[i])
    ensures SeqMax(xs[..i + 1]) == Max(SeqMax(xs[..i]), xs[i])
  {
    assert xs[..i + 1] == xs[..i] + [xs[i]];
    SeqMinSnoc(xs[..i], xs[i]);
    SeqMaxSnoc(xs[..i], xs[i]);
  }

  /** The offset line ends with both numbers of the last offset, without a trailing comma. */
  lemma OffsetLastPair(offsets: seq<Coord>, k: nat, head: string, last: Coord)
    requires k + 1 == |offsets| && last == offsets[k]
    requires head == Terminated(OffsetStrings(offsets)[..2 * k], ',')
    ensures Join(OffsetStrings(offsets), ',') == head + IntToString(last.x) + "," + IntToString(last.y)
  {
    var os := OffsetStrings(offsets);
    OffsetStringsAt(offsets, k);
    TerminatedSnoc(os, 2 * k, ',');
    assert os[..|os| - 1] == os[..2 * k + 1];
  }

  /** The offset loop of dump_coords writes both numbers of offset i, each followed by a comma. */
  lemma OffsetPairStep(offsets: seq<Coord>, i: nat)
    requires i < |offsets|
    ensures var os := OffsetStrings(offsets);
      Terminated(os[..2 * i + 2], ',') ==
      Terminated(os[..2 * i], ',') + IntToString(offsets[i].x) + "," + IntToString(offsets[i].y) + ","
  {
    var os := OffsetStrings(offsets);
    OffsetStringsAt(offsets, i);
    TerminatedPair(os, 2 * i, IntToString(offsets[i].x), IntToString(offsets[i].y), ',');
  }

  class Omni {
    /** The number of images (`n_imgs`). */
    const n: nat
    /** The size of every image, taken from the first one. */
    const width: int
    const height: int
    /** The size of the view: the image plus width/3 (height/5) on each side. */
    const viewportWidth: int
    const viewportHeight: int
    /** The decoded images, in directory order. */
    const imgs: seq<Image>
    /** Where each image sits on the canvas. */
    const coords: array<Coord>
    /** Per junction (between image i and i+1): folded or not, and the fine offset. */
    const folds: array<bool>
    const offsets: array<Coord>
    /** The pixels on screen, indexed [row, column]. */
    const view: array2<int>
    /** The canvas point shown at the view's top-left corner. */
    var lookingAt: Coord
    /** The legal range of `lookingAt` on each axis. */
    var xbounds: Span
    var ybounds: Span
    /** When the layout was last written to a file. */
    var lastCoordDump: int

    function D(): Dims
    {
      Dims(n, width, height, viewportWidth, viewportHeight)
    }

    /** The state `key_pressed` works on, as a value. */
    ghost function State(): Session
      reads this, coords, folds, offsets
    {
      Session(folds[..], offsets[..], coords[..], lookingAt, xbounds, ybounds, lastCoordDump)
    }

    /** The layout arrays have one entry per image and per junction. */
    ghost predicate Allocated()
    {
      n >= 2 && width >= 1 && height >= 1 && coords.Length == n && folds.Length == n - 1 && offsets.Length == n - 1 && coords != offsets
    }

    /** Sizes of the arrays and images as `main` allocates them. */
    ghost predicate Shaped()
    {
      Allocated() && SessionDims(D()) && |imgs| == n && AllWellFormed(imgs, width, height) &&
      view.Length0 == viewportHeight && view.Length1 == viewportWidth
    }

    /** In between key presses: placement and bounds agree with the layout, the corner is in range. */
    ghost predicate Valid()
      reads this, coords, folds, offsets
    {
      Shaped() && Consistent(D(), State()) && InBounds(State())
    }

    /**
     * A session over the given images: the layout file's layout if one is
     * given and reads back for this many images, otherwise no folds and
     * zero offsets; the view centred on image 0 and drawn once.
     */
    constructor (images: seq<Image>, layoutFile: Option<string>, now: int)
      requires |images| >= 2 && |images[0]| >= 1 && |images[0][0]| >= 1
      requires AllWellFormed(images, |images[0][0]|, |images[0]|)
      ensures Valid()
      ensures n == |images| && imgs == images && width == |images[0][0]| && height == |images[0]|
      ensures State() == InitialSession(D(), InitialLayout(layoutFile, |images|), now)
      ensures Displays(view, imgs, coords[..], width, height, lookingAt, n)
      ensures fresh(coords) && fresh(folds) && fresh(offsets) && fresh(view)
    {
      var count := |images|;
      var w, h := |images[0][0]|, |images[0]|;
      var xpad, ypad := w / 3, h / 5;
      n := count;
      imgs := images;
      width, height := w, h;
      viewportWidth, viewportHeight := xpad + w + xpad, ypad + h + ypad;
      coords := new Coord[count](_ => Coord(0, 0));
      folds := new bool[count - 1](_ => false);
      offsets := new Coord[count - 1](_ => Coord(0, 0));
      view := new int[ypad + h + ypad, xpad + w + xpad];
      lookingAt := Coord(-xpad, -ypad);
      xbounds, ybounds := Span(0, 0), Span(0, 0);
      lastCoordDump := now;
      new;
      assert Shaped() && viewportWidth >= 1 && viewportHeight >= 1;
      LoadLayout(layoutFile, now);
      ghost var started := State();
      var drawn := PopulateView(view, lookingAt, viewportWidth, viewportHeight, false);
      assert State() == started;
    }

    /**
     * The layout part of `main` once the arrays exist: read the layout file
     * over the zero layout, then lay the images out and bound the pan range.
     */
    method LoadLayout(layoutFile: Option<string>, now: int)
      requires Shaped()
      requires forall i :: 0 <= i < n - 1 ==> !folds[i] && offsets[i] == Coord(0, 0)
      requires lookingAt == Coord(-(width / 3), -(height / 5)) && lastCoordDump == now
      modifies this, coords, folds, offsets
      ensures Valid()
      ensures State() == InitialSession(D(), InitialLayout(layoutFile, n), now)
    {
      ReadLayout(layoutFile);
      ghost var loaded := State();
      Relayout();
      ghost var layout := InitialLayout(layoutFile, n);
      assert State() == InitialSession(D(), layout, now) by {
        var start := Session(layout.folds, layout.offsets, [], Coord(-(width / 3), -(height / 5)),
                             Span(0, 0), Span(0, 0), now);
        RegenerateIgnoresDerived(D(), loaded, start, layout.folds, layout.offsets);
      }
      InitialSessionInBounds(D(), layout, now);
    }

    /** regenerate_coords followed by regenerate_bounding_box, as every layout change does. */
    method Relayout()
      requires Allocated()
      modifies this, coords
      ensures State() == Regenerate(D(), old(State()), folds[..], offsets[..])
    {
      RegenerateCoords();
      RegenerateBoundingBox();
    }

    /**
     * The layout-file branch of `main`: the calloc'ed zero layout stays
     * unless the file reads back for this many images, in which case its
     * fold flags and offsets are stored.
     */
    method ReadLayout(layoutFile: Option<string>)
      requires Allocated()
      requires forall i :: 0 <= i < n - 1 ==> !folds[i] && offsets[i] == Coord(0, 0)
      modifies folds, offsets
      ensures folds[..] == InitialLayout(layoutFile, n).folds
      ensures offsets[..] == InitialLayout(layoutFile, n).offsets
    {
      if layoutFile.Some? && ParseLayout(layoutFile.value, n).Loaded? {
        var layout := ParseLayout(layoutFile.value, n).layout;
        var i := 0;
        while i < n - 1
          invariant 0 <= i <= n - 1
          invariant folds[..i] == layout.folds[..i] && offsets[..i] == layout.offsets[..i]
        {
          folds[i] := layout.folds[i];
          offsets[i] := layout.offsets[i];
          i := i + 1;
        }
        assert folds[..] == folds[..n - 1];
        assert offsets[..] == offsets[..n - 1];
      } else {
        assert folds[..] == ZeroLayout(n).folds;
        assert offsets[..] == ZeroLayout(n).offsets;
      }
    }

    /** regenerate_coords: lay the images out from the folds and offsets. */
    method RegenerateCoords()
      requires Allocated()
      modifies coords
      ensures coords[..] == Coords(folds[..], offsets[..], width, height)
    {
      ghost var fs, os := folds[..], offsets[..];
      ghost var cs := Coords(fs, os, width, height);
      var c := Coord(0, 0);
      var direction := 1;
      var i := 0;
      while true
        invariant 0 <= i < n
        invariant c == cs[i] && direction == Direction(fs[..i])
        invariant coords[..i] == cs[..i]
        decreases n - i
      {
        coords[i] := c;
        assert coords[..i + 1] == cs[..i + 1];
        if i >= n - 1 {
          break;
        }
        ghost var c0, d0 := c, direction;
        var fold := folds[i];
        if fold {
          c := c.(x := c.x - width);
          direction := direction * -1;
        } else {
          c := c.(y := c.y + direction * height);
        }
        c := Coord(c.x + offsets[i].x, c.y + offsets[i].y);
        LayoutStep(fs, os, width, height, i, c0, d0, c, direction);
        i := i + 1;
      }
      assert coords[..] == coords[..n] && cs == cs[..n];
    }

    /** regenerate_bounding_box's loop: the pan range of the current placement, in locals. */
    method PanBounds() returns (xb: Span, yb: Span)
      requires Allocated()
      ensures xb == AxisBounds(Xs(coords[..]), width, viewportWidth)
      ensures yb == AxisBounds(Ys(coords[..]), height, viewportHeight)
    {
      ghost var xs, ys := Xs(coords[..]), Ys(coords[..]);
      // how far left of (above) an image the corner may go, and how far right of (below) it
      var xback, xahead := width / 2, width / 2 + width - viewportWidth;
      var yback, yahead := height / 2, height / 2 + height - viewportHeight;
      var xlo, xhi := coords[0].x - xback, coords[0].x + xahead;
      var ylo, yhi := coords[0].y - yback, coords[0].y + yahead;
      assert xs[..1] == [xs[0]] && ys[..1] == [ys[0]];
      var i := 1;
      while i < n
        invariant 1 <= i <= n
        invariant xlo == SeqMin(xs[..i]) - xback && xhi == SeqMax(xs[..i]) + xahead
        invariant ylo == SeqMin(ys[..i]) - yback && yhi == SeqMax(ys[..i]) + yahead
      {
        xlo := Min(xlo, coords[i].x - xback);
        xhi := Max(xhi, coords[i].x + xahead);
        ylo := Min(ylo, coords[i].y - yback);
        yhi := Max(yhi, coords[i].y + yahead);
        ExtremesStep(xs, i);
        ExtremesStep(ys, i);
        i := i + 1;
      }
      assert xs[..n] == xs && ys[..n] == ys;
      xb, yb := Span(xlo, xhi), Span(ylo, yhi);
    }

    /** regenerate_bounding_box: install the pan range of the current placement. */
    method RegenerateBoundingBox()
      requires Allocated()
      modifies this
      ensures xbounds == AxisBounds(Xs(coords[..]), width, viewportWidth)
      ensures ybounds == AxisBounds(Ys(coords[..]), height, viewportHeight)
      ensures lookingAt == old(lookingAt) && lastCoordDump == old(lastCoordDump)
    {
      xbounds, ybounds := PanBounds();
    }

    /**
     * populate_view, drawing into `target` (the view, or the export
     * picture) the window of size vw by vh at `look`: black first, then
     * every image that meets the sampled window, in index order.  At 1:1
     * each is copied clipped; zoomed out the window grows by ZoomFactor image
     * sizes each way and the scaled composite of those images is not
     * modelled.  Returns the indices of the images drawn.
     */
    method PopulateView(target: array2<int>, look: Coord, vw: int, vh: int, zoomedOut: bool)
      returns (drawn: seq<nat>)
      requires Shaped() && vw >= 1 && vh >= 1
      requires target.Length0 == vh && target.Length1 == vw
      modifies target
      ensures drawn == OverlappingBelow(coords[..], width, height,
                                        SampledWindow(look, vw, vh, width, height, zoomedOut), n)
      ensures !zoomedOut ==> Displays(target, imgs, coords[..], width, height, look, n)
    {
      // ZOOMFACTOR image sizes are added on every side when zoomed out, none at 1:1
      var win := Window(look, vw, vh);
      if zoomedOut {
        win := Window(Coord(look.x - ZoomFactor * width, look.y - ZoomFactor * height),
                      vw + 2 * ZoomFactor * width, vh + 2 * ZoomFactor * height);
      }
      Fill(target, Black);
      drawn := [];
      var i := 0;
      while i < n
        invariant 0 <= i <= n
        invariant drawn == OverlappingBelow(coords[..], width, height, win, i)
        invariant !zoomedOut ==> Displays(target, imgs, coords[..], width, height, look, i)
      {
        var overlaps := DrawImage(target, look, win, i, zoomedOut);
        if overlaps {
          drawn := drawn + [i];
        }
        i := i + 1;
      }
    }

    /**
     * One turn of populate_view's loop: image i is clipped against the
     * sampled window `win` and, when something of it is left, drawn (copied
     * at 1:1; the zoomed-out composite is not modelled).
     */
    method DrawImage(target: array2<int>, look: Coord, win: Window, i: nat, zoomedOut: bool)
      returns (overlaps: bool)
      requires Shaped() && i < n && win.width >= 1 && win.height >= 1
      requires !zoomedOut ==> win == Window(look, target.Length1, target.Length0)
      requires !zoomedOut ==> Displays(target, imgs, coords[..], width, height, look, i)
      modifies target
      ensures overlaps <==> Overlaps(coords[i], width, height, win)
      ensures !zoomedOut ==> Displays(target, imgs, coords[..], width, height, look, i + 1)
    {
      var cx := ClipAxis(coords[i].x, width, win.origin.x, win.width);
      var cy := ClipAxis(coords[i].y, height, win.origin.y, win.height);
      var w, h := cx.Length(), cy.Length();
      overlaps := w > 0 && h > 0;
      if overlaps && !zoomedOut {
        CopyArea(imgs[i], cx.srcStart, cy.srcStart, w, h, target, cx.destStart, cy.destStart);
      }
      if !zoomedOut {
        forall r, c | 0 <= r < win.height && 0 <= c < win.width
          ensures target[r, c] == Covering(imgs, coords[..], width, height, i + 1, look.x + c, look.y + r)
        {
          ClipPixel(coords[i].x, width, look.x, win.width, c);
          ClipPixel(coords[i].y, height, look.y, win.height, r);
          assert old(target[r, c]) == Covering(imgs, coords[..], width, height, i, look.x + c, look.y + r);
        }
      }
    }

    /** viewport_index: the first image lying strictly inside the view, or -1. */
    method ViewportIndex() returns (r: int)
      requires Shaped()
      ensures r == HitIndex(coords[..], width, height, lookingAt, viewportWidth, viewportHeight)
    {
      var i := 0;
      while i < n
        invariant 0 <= i <= n
        invariant HitIndex(coords[..], width, height, lookingAt, viewportWidth, viewportHeight) ==
                  HitFrom(coords[..], width, height, lookingAt, viewportWidth, viewportHeight, i)
      {
        if lookingAt.x < coords[i].x && coords[i].x + width < lookingAt.x + viewportWidth &&
           lookingAt.y < coords[i].y && coords[i].y + height < lookingAt.y + viewportHeight {
          return i;
        }
        i := i + 1;
      }
      return -1;
    }

    /** The text dump_coords writes: the image count, the fold line, the offset line. */
    method LayoutDump() returns (text: string)
      requires Allocated()
      ensures text == Serialize(folds[..], offsets[..])
    {
      var foldLine := FoldLine();
      var offsetLine := OffsetLine();
      text := IntToString(n) + "\n" + foldLine + "\n" + offsetLine + "\n";
    }

    /** dump_coords's first loop: every fold flag as 0 or 1, comma-separated. */
    method FoldLine() returns (line: string)
      requires Allocated()
      ensures line == Join(FoldStrings(folds[..]), ',')
    {
      ghost var fs := FoldStrings(folds[..]);
      line := "";
      var i := 0;
      while i < n - 2
        invariant 0 <= i <= n - 2
        invariant line == Terminated(fs[..i], ',')
      {
        line := line + FoldText(folds[i]) + ",";
        assert fs[..i + 1][..i] == fs[..i];
        i := i + 1;
      }
      line := line + FoldText(folds[n - 2]);
      assert fs[..|fs| - 1] == fs[..n - 2];
    }

    /** dump_coords's second loop: x and y of every offset, comma-separated. */
    method OffsetLine() returns (line: string)
      requires Allocated()
      ensures line == Join(OffsetStrings(offsets[..]), ',')
    {
      line := OffsetPrefix();
      var last := offsets[n - 2];
      OffsetLastPair(offsets[..], n - 2, line, last);
      line := line + IntToString(last.x) + "," + IntToString(last.y);
    }

    /** The loop of the offset line: "x,y," for every junction but the last. */
    method OffsetPrefix() returns (line: string)
      requires Allocated()
      ensures line == Terminated(OffsetStrings(offsets[..])[..2 * (n - 2)], ',')
    {
      ghost var os := OffsetStrings(offsets[..]);
      line := "";
      var i := 0;
      while i < n - 2
        invariant 0 <= i <= n - 2
        invariant line == Terminated(os[..2 * i], ',')
      {
        line := line + IntToString(offsets[i].x) + "," + IntToString(offsets[i].y) + ",";
        OffsetPairStep(offsets[..], i);
        i := i + 1;
      }
    }

    /**
     * dump_coords: when the file opens, the layout text is written and the
     * time recorded; otherwise nothing changes.
     */
    method DumpCoords(now: int, fileOpens: bool) returns (written: Option<string>)
      requires Shaped()
      modifies this
      ensures State() == Dump(old(State()), now, fileOpens)
      ensures written.Some? <==> fileOpens
      ensures written.Some? ==> written.value == Serialize(folds[..], offsets[..])
    {
      written := None;
      if fileOpens {
        var text := LayoutDump();
        written := Some(text);
        lastCoordDump := now;
      }
    }

    /** The 'p' command's bounding box: from the least image corner to the greatest far edge. */
    method ExportBounds() returns (win: Window)
      requires Allocated()
      ensures win == ExportWindow(coords[..], width, height)
    {
      ghost var xs, ys := Xs(coords[..]), Ys(coords[..]);
      var x0, x1 := coords[0].x, coords[0].x + width;
      var y0, y1 := coords[0].y, coords[0].y + height;
      assert xs[..1] == [xs[0]] && ys[..1] == [ys[0]];
      var i := 1;
      while i < n
        invariant 1 <= i <= n
        invariant x0 == SeqMin(xs[..i]) && x1 == SeqMax(xs[..i]) + width
        invariant y0 == SeqMin(ys[..i]) && y1 == SeqMax(ys[..i]) + height
      {
        x0 := Min(x0, coords[i].x);
        x1 := Max(x1, coords[i].x + width);
        y0 := Min(y0, coords[i].y);
        y1 := Max(y1, coords[i].y + height);
        ExtremesStep(xs, i);
        ExtremesStep(ys, i);
        i := i + 1;
      }
      assert xs[..n] == xs && ys[..n] == ys;
      win := Window(Coord(x0, y0), x1 - x0, y1 - y0);
    }

    /**
     * The 'p' command's picture: the bounding box of all images rendered at
     * 1:1 into a fresh picture of that size.
     */
    method ExportMosaic() returns (picture: array2<int>, win: Window)
      requires Shaped()
      ensures win == ExportWindow(coords[..], width, height)
      ensures fresh(picture) && picture.Length0 == win.height && picture.Length1 == win.width
      ensures Displays(picture, imgs, coords[..], width, height, win.origin, n)
    {
      win := ExportBounds();
      assert win.width >= width && win.height >= height by {
        SeqExtremes(Xs(coords[..]));
        SeqExtremes(Ys(coords[..]));
      }
      picture := new int[win.height, win.width];
      var drawn := PopulateView(picture, win.origin, win.width, win.height, false);
    }

    /** Toggle the fold after image i and lay out again. */
    method ToggleFold(i: int)
      requires Shaped() && Consistent(D(), State()) && 0 <= i < n - 1
      modifies this, folds, coords
      ensures State() == ToggleFoldAfter(D(), old(State()), i)
    {
      folds[i] := !folds[i];
      Relayout();
    }

    /** Move the offset before image i one step and lay out again. */
    method NudgeOffset(i: int, hd: Heading, m: Modifier)
      requires Shaped() && Consistent(D(), State()) && 0 <= i < n
      modifies this, offsets, coords
      ensures State() == NudgeBefore(D(), old(State()), i, hd, m)
    {
      var j := Max(0, i - 1);
      offsets[j] := Move(offsets[j], hd, StepSize(m));
      Relayout();
    }

    /**
     * key_pressed: the session moves on as KeyPress says; the dump written
     * (if any) holds the layout the command started from; a render at 1:1
     * shows the new corner's window; an export hands back the picture of the
     * whole mosaic.
     */
    method KeyPressed(cmd: Command, now: int, fileOpens: bool)
      returns (quit: bool, dump: Option<string>, picture: array2?<int>)
      requires Valid()
      modifies this, coords, folds, offsets, view
      ensures Valid()
      ensures var r := KeyPress(D(), old(State()), cmd, now, fileOpens);
        State() == r.next && quit == r.quit && (dump.Some? <==> r.wrote) &&
        (picture != null <==> r.exported)
      ensures dump.Some? ==> dump.value == Serialize(old(folds[..]), old(offsets[..]))
      ensures KeyPress(D(), old(State()), cmd, now, fileOpens).render == Repaint(false) ==>
        Displays(view, imgs, coords[..], width, height, lookingAt, n)
      ensures KeyPress(D(), old(State()), cmd, now, fileOpens).render == NoRepaint ==> unchanged(view)
      ensures picture != null ==>
        var win := ExportWindow(coords[..], width, height);
        fresh(picture) && picture.Length0 == win.height && picture.Length1 == win.width &&
        Displays(picture, imgs, coords[..], width, height, win.origin, n)
    {
      KeyPressKeepsInvariant(D(), State(), cmd, now, fileOpens);
      if cmd.Quit? {
        return true, None, null;
      }
      var autosaved := AutosaveIfDue(cmd, now, fileOpens);
      quit := false;
      dump, picture := RespondTo(cmd, now, fileOpens, autosaved);
    }

    /**
     * The switch of key_pressed, after the autosave that produced `autosaved`:
     * the session moves on as Respond says, and the view or the exported
     * picture shows the result.
     */
    method RespondTo(cmd: Command, now: int, fileOpens: bool, autosaved: Option<string>)
      returns (dump: Option<string>, picture: array2?<int>)
      requires Shaped() && Consistent(D(), State()) && !cmd.Quit?
      requires autosaved.Some? ==> autosaved.value == Serialize(folds[..], offsets[..])
      modifies this, coords, folds, offsets, view
      ensures var r := Respond(D(), old(State()), cmd, now, fileOpens, autosaved.Some?);
        State() == r.next && (dump.Some? <==> r.wrote) && (picture != null <==> r.exported)
      ensures dump.Some? ==> dump.value == Serialize(old(folds[..]), old(offsets[..]))
      ensures Respond(D(), old(State()), cmd, now, fileOpens, autosaved.Some?).render == Repaint(false) ==>
        Displays(view, imgs, coords[..], width, height, lookingAt, n)
      ensures Respond(D(), old(State()), cmd, now, fileOpens, autosaved.Some?).render == NoRepaint ==>
        unchanged(view)
      ensures picture != null ==>
        var win := ExportWindow(coords[..], width, height);
        fresh(picture) && picture.Length0 == win.height && picture.Length1 == win.width &&
        Displays(picture, imgs, coords[..], width, height, win.origin, n)
    {
      picture := null;
      if cmd.Export? {
        dump, picture := ExportCommand(now, fileOpens);
        return;
      }
      var stop, zoomedOut;
      dump, stop, zoomedOut := Adjust(cmd, now, fileOpens, autosaved);
      if stop {
        return;
      }
      var drawn := ClampAndShow(zoomedOut);
    }

    /**
     * The cases of the switch that end with the closing clamp (pans, nudges,
     * fold, zoom, save), up to that clamp; `stop` is the fold on the last
     * image, which returns at once.
     */
    method Adjust(cmd: Command, now: int, fileOpens: bool, autosaved: Option<string>)
      returns (dump: Option<string>, stop: bool, zoomedOut: bool)
      requires Shaped() && Consistent(D(), State()) && !cmd.Quit? && !cmd.Export?
      requires autosaved.Some? ==> autosaved.value == Serialize(folds[..], offsets[..])
      modifies this, coords, folds, offsets
      ensures Consistent(D(), State())
      ensures var r := Respond(D(), old(State()), cmd, now, fileOpens, autosaved.Some?);
        (stop <==> r.render == NoRepaint) && (dump.Some? <==> r.wrote) && !r.exported &&
        if stop then State() == r.next else ClampLook(State()) == r.next && r.render == Repaint(zoomedOut)
      ensures dump.Some? ==> dump.value == Serialize(old(folds[..]), old(offsets[..]))
    {
      dump, stop, zoomedOut := autosaved, false, false;
      match cmd {
        case Pan(hd, m) =>
          lookingAt := Move(lookingAt, hd, PanDistance(m));
        case Nudge(hd, m) =>
          NudgeCommand(hd, m);
        case Fold =>
          stop := FoldCommand();
        case ZoomOut =>
          zoomedOut := true;
        case SaveLayout =>
          dump := DumpCoords(now, fileOpens);
      }
    }

    /** The nudge keys: move the offset before the image under the viewport, if there is one. */
    method NudgeCommand(hd: Heading, m: Modifier)
      requires Shaped() && Consistent(D(), State())
      modifies this, coords, offsets
      ensures var i := Hit(D(), old(State()));
        State() == if i < 0 then old(State()) else NudgeBefore(D(), old(State()), i, hd, m)
    {
      var i := ViewportIndex();
      if i >= 0 {
        NudgeOffset(i, hd, m);
      }
    }

    /**
     * The fold key: toggle the fold after the image under the viewport, if
     * there is one; on the last image, stop at once.
     */
    method FoldCommand() returns (stop: bool)
      requires Shaped() && Consistent(D(), State())
      modifies this, coords, folds
      ensures var i := Hit(D(), old(State()));
        (stop <==> i >= n - 1) &&
        State() == if i < 0 || i >= n - 1 then old(State()) else ToggleFoldAfter(D(), old(State()), i)
    {
      stop := false;
      var i := ViewportIndex();
      if i >= 0 {
        if i >= n - 1 {
          return true;
        }
        ToggleFold(i);
      }
    }

    /** The export key: dump the layout, then render the whole mosaic into a fresh picture. */
    method ExportCommand(now: int, fileOpens: bool) returns (written: Option<string>, picture: array2<int>)
      requires Shaped()
      modifies this
      ensures State() == Dump(old(State()), now, fileOpens)
      ensures written.Some? <==> fileOpens
      ensures written.Some? ==> written.value == Serialize(folds[..], offsets[..])
      ensures var win := ExportWindow(coords[..], width, height);
        fresh(picture) && picture.Length0 == win.height && picture.Length1 == win.width &&
        Displays(picture, imgs, coords[..], width, height, win.origin, n)
    {
      written := DumpCoords(now, fileOpens);
      var win;
      picture, win := ExportMosaic();
    }

    /** The autosave at the top of key_pressed: a dump when the last one is too old. */
    method AutosaveIfDue(cmd: Command, now: int, fileOpens: bool) returns (written: Option<string>)
      requires Shaped()
      modifies this
      ensures State() == Autosave(old(State()), cmd, now, fileOpens)
      ensures written.Some? <==> AutosaveDue(cmd, now, old(lastCoordDump)) && fileOpens
      ensures written.Some? ==> written.value == Serialize(folds[..], offsets[..])
    {
      written := None;
      if AutosaveDue(cmd, now, lastCoordDump) {
        written := DumpCoords(now, fileOpens);
      }
    }

    /** The closing CLAMP of key_pressed and the 1:1 or zoomed render that follows it. */
    method ClampAndShow(zoomedOut: bool) returns (drawn: seq<nat>)
      requires Shaped() && Consistent(D(), State())
      modifies this, view
      ensures State() == ClampLook(old(State())) && Valid()
      ensures drawn == OverlappingBelow(coords[..], width, height,
                                        SampledWindow(lookingAt, viewportWidth, viewportHeight, width, height, zoomedOut), n)
      ensures !zoomedOut ==> Displays(view, imgs, coords[..], width, height, lookingAt, n)
    {
      ClampKeeps(D(), State());
      lookingAt := Coord(Clamp(lookingAt.x, xbounds.lo, xbounds.hi),
                         Clamp(lookingAt.y, ybounds.lo, ybounds.hi));
      ghost var clamped := State();
      drawn := PopulateView(view, lookingAt, viewportWidth, viewportHeight, zoomedOut);
      assert State() == clamped;
    }
  }
}
