/**
 * What one key press does to the session (main.c's `key_pressed`), as a
 * function from the session before to the session after, with the keyboard
 * shortcuts replaced by an abstract command.  The imperative `Omni` class is
 * proved to follow this function; the lemmas here state what the commands
 * promise.
 */
module Commands {
  import opened Geometry
  import LayoutText

  /** The modifier of a shortcut: none, Shift, or the platform's primary key (Control or Meta). */
  datatype Modifier = Plain | Shift | Control | Meta

  /** The four directions of the pan keys (w a s d) and of the nudge keys (i j k l). */
  datatype Heading = Up | Left | Down | Right

  datatype Command =
    | Quit                                          // <primary>q
    | Pan(heading: Heading, modifier: Modifier)     // w a s d
    | Nudge(heading: Heading, modifier: Modifier)   // i j k l
    | Fold                                          // f
    | ZoomOut                                       // z
    | SaveLayout                                    // o
    | Export                                        // p

  /** The pan distance at step size 1. */
  const ViewStep: int := 100

  /** Seconds after the last layout dump before a command triggers an automatic one. */
  const AutosaveInterval: int := 300

  /** The step size a modifier selects: Shift 10, Control or Meta 100, none 1. */
  function StepSize(m: Modifier): (s: int)
    ensures s == 1 || s == 10 || s == 100
    ensures s == 1 <==> m.Plain?
    ensures m.Shift? ==> s == 10
    ensures m.Control? || m.Meta? ==> s == 100
  {
    match m
    case Plain => 1
    case Shift => 10
    case Control => 100
    case Meta => 100
  }

  /** How far a pan moves: the larger the step size, the finer the pan. */
  function PanDistance(m: Modifier): (d: int)
    ensures d >= 1 && d * StepSize(m) == ViewStep
  {
    ViewStep / StepSize(m)
  }

  /** The position moved k units up (y decreases), left (x decreases), down or right. */
  function Move(c: Coord, hd: Heading, k: int): (r: Coord)
    ensures hd.Up? || hd.Down? ==> r.x == c.x
    ensures hd.Left? || hd.Right? ==> r.y == c.y
    ensures (r.x - c.x) + (r.y - c.y) == if hd.Up? || hd.Left? then -k else k
  {
    match hd
    case Up => Coord(c.x, c.y - k)
    case Left => Coord(c.x - k, c.y)
    case Down => Coord(c.x, c.y + k)
    case Right => Coord(c.x + k, c.y)
  }

  function Opposite(hd: Heading): Heading
  {
    match hd
    case Up => Down
    case Left => Right
    case Down => Up
    case Right => Left
  }

  /** A move is undone by the same move the other way. */
  lemma MoveUndone(c: Coord, hd: Heading, k: int)
    ensures Move(Move(c, hd, k), Opposite(hd), k) == c
  {
  }

  /** The fixed sizes of a session: image count, image size, viewport size. */
  datatype Dims = Dims(n: nat, width: int, height: int, viewportWidth: int, viewportHeight: int)

  /**
   * The sizes as `main` sets them up: at least two images, of positive size,
   * and a viewport of the image plus a pad of width/3 (height/5) on each side.
   */
  predicate SessionDims(d: Dims)
  {
    d.n >= 2 && d.width >= 1 && d.height >= 1 &&
    d.viewportWidth == d.width + 2 * (d.width / 3) &&
    d.viewportHeight == d.height + 2 * (d.height / 5)
  }

  /** The state `key_pressed` reads and writes. */
  datatype Session = Session(
    folds: seq<bool>,
    offsets: seq<Coord>,
    coords: seq<Coord>,
    lookingAt: Coord,
    xbounds: Span,
    ybounds: Span,
    lastCoordDump: int)

  /** The derived state (placement and pan range) agrees with the layout. */
  predicate Consistent(d: Dims, s: Session)
  {
    d.n >= 1 && d.width >= 0 && d.height >= 0 &&
    |s.folds| == d.n - 1 && |s.offsets| == d.n - 1 &&
    s.coords == Coords(s.folds, s.offsets, d.width, d.height) &&
    s.xbounds == AxisBounds(Xs(s.coords), d.width, d.viewportWidth) &&
    s.ybounds == AxisBounds(Ys(s.coords), d.height, d.viewportHeight)
  }

  /** The viewport's corner lies within the pan range. */
  predicate InBounds(s: Session)
  {
    s.xbounds.lo <= s.lookingAt.x <= s.xbounds.hi &&
    s.ybounds.lo <= s.lookingAt.y <= s.ybounds.hi
  }

  /** Install a layout and re-derive placement and pan range (regenerate_coords, regenerate_bounding_box). */
  function Regenerate(d: Dims, s: Session, folds: seq<bool>, offsets: seq<Coord>): (r: Session)
    requires d.n >= 1 && d.width >= 0 && d.height >= 0
    requires |folds| == d.n - 1 && |offsets| == d.n - 1
    ensures Consistent(d, r)
    ensures r.folds == folds && r.offsets == offsets
    ensures r.lookingAt == s.lookingAt && r.lastCoordDump == s.lastCoordDump
  {
    var cs := Coords(folds, offsets, d.width, d.height);
    s.(folds := folds, offsets := offsets, coords := cs,
       xbounds := AxisBounds(Xs(cs), d.width, d.viewportWidth),
       ybounds := AxisBounds(Ys(cs), d.height, d.viewportHeight))
  }

  /** Regenerate keeps only the corner and the dump time of the session it is given. */
  lemma RegenerateIgnoresDerived(d: Dims, s: Session, t: Session, folds: seq<bool>, offsets: seq<Coord>)
    requires d.n >= 1 && d.width >= 0 && d.height >= 0
    requires |folds| == d.n - 1 && |offsets| == d.n - 1
    requires s.lookingAt == t.lookingAt && s.lastCoordDump == t.lastCoordDump
    ensures Regenerate(d, s, folds, offsets) == Regenerate(d, t, folds, offsets)
  {
  }

  /** The image under the viewport (viewport_index), or -1. */
  function Hit(d: Dims, s: Session): int
  {
    HitIndex(s.coords, d.width, d.height, s.lookingAt, d.viewportWidth, d.viewportHeight)
  }

  /** Every command but quit, save and export first dumps the layout when the last dump is too old. */
  predicate AutosaveDue(cmd: Command, now: int, lastCoordDump: int)
  {
    !cmd.SaveLayout? && !cmd.Export? && now - lastCoordDump > AutosaveInterval
  }

  /** A layout dump at time `now`; only a dump whose file opens records the time. */
  function Dump(s: Session, now: int, fileOpens: bool): Session
  {
    if fileOpens then s.(lastCoordDump := now) else s
  }

  /** The closing CLAMP of the viewport corner into the pan range. */
  function ClampLook(s: Session): (r: Session)
    ensures r.xbounds.lo <= r.xbounds.hi && r.ybounds.lo <= r.ybounds.hi ==> InBounds(r)
    ensures InBounds(s) ==> r == s
  {
    s.(lookingAt := Coord(Clamp(s.lookingAt.x, s.xbounds.lo, s.xbounds.hi),
                          Clamp(s.lookingAt.y, s.ybounds.lo, s.ybounds.hi)))
  }

  /** Whether a command ends by re-rendering the view, and at which magnification. */
  datatype Repaint = NoRepaint | Repaint(zoomedOut: bool)

  /** The new session and what else the key press did: a layout dump written, a render, an export, quitting. */
  datatype Reaction = Reaction(next: Session, wrote: bool, render: Repaint, exported: bool, quit: bool)

  function Finish(s: Session, wrote: bool, zoomedOut: bool): Reaction
  {
    Reaction(ClampLook(s), wrote, Repaint(zoomedOut), false, false)
  }

  /**
   * One key press.  Quit ends the session at once.  Otherwise an overdue
   * autosave comes first; then pans move the viewport, nudges move the offset
   * of the junction before the image under the viewport, a fold toggles the
   * junction after it (and on the last image returns at once); save dumps the
   * layout; export dumps it and renders the whole mosaic, returning before the
   * clamp.  Everything else ends with the clamp and a render.
   */
  function KeyPress(d: Dims, s: Session, cmd: Command, now: int, fileOpens: bool): Reaction
    requires Consistent(d, s) && d.n >= 2
  {
    if cmd.Quit? then Reaction(s, false, NoRepaint, false, true)
    else Respond(d, Autosave(s, cmd, now, fileOpens), cmd, now, fileOpens,
                 AutosaveDue(cmd, now, s.lastCoordDump) && fileOpens)
  }

  /**
   * The command proper, after the autosave (which wrote a dump when `wrote`
   * holds): the switch of key_pressed and the closing clamp.
   */
  function Respond(d: Dims, s1: Session, cmd: Command, now: int, fileOpens: bool, wrote: bool): Reaction
    requires Consistent(d, s1) && d.n >= 2 && !cmd.Quit?
  {
    match cmd
    case Pan(hd, m) => Finish(s1.(lookingAt := Move(s1.lookingAt, hd, PanDistance(m))), wrote, false)
    case Nudge(hd, m) =>
      var i := Hit(d, s1);
      if i < 0 then Finish(s1, wrote, false)
      else Finish(NudgeBefore(d, s1, i, hd, m), wrote, false)
    case Fold =>
      var i := Hit(d, s1);
      if i < 0 then Finish(s1, wrote, false)
      else if i >= d.n - 1 then Reaction(s1, wrote, NoRepaint, false, false)
      else Finish(ToggleFoldAfter(d, s1, i), wrote, false)
    case ZoomOut => Finish(s1, wrote, true)
    case SaveLayout => Finish(Dump(s1, now, fileOpens), fileOpens, false)
    case Export => Reaction(Dump(s1, now, fileOpens), fileOpens, NoRepaint, true, false)
  }


  /** The session after the autosave check that precedes a command. */
  function Autosave(s: Session, cmd: Command, now: int, fileOpens: bool): (r: Session)
    ensures r == s.(lastCoordDump := r.lastCoordDump)
  {
    if AutosaveDue(cmd, now, s.lastCoordDump) then Dump(s, now, fileOpens) else s
  }

  /** Move the offset of junction max(0, i-1), the one before image i, and re-derive. */
  function NudgeBefore(d: Dims, s: Session, i: int, hd: Heading, m: Modifier): (r: Session)
    requires Consistent(d, s) && d.n >= 2 && 0 <= i < d.n
    ensures Consistent(d, r)
  {
    var j := Max(0, i - 1);
    Regenerate(d, s, s.folds, s.offsets[j := Move(s.offsets[j], hd, StepSize(m))])
  }

  /** Toggle the fold of junction i, the one after image i, and re-derive. */
  function ToggleFoldAfter(d: Dims, s: Session, i: int): (r: Session)
    requires Consistent(d, s) && 0 <= i < d.n - 1
    ensures Consistent(d, r)
  {
    Regenerate(d, s, s.folds[i := !s.folds[i]], s.offsets)
  }

  // ---------------------------------------------------------------------
  // What the commands promise
  // ---------------------------------------------------------------------

  /**
   * A pan moves one coordinate of the viewport corner by 100/step size and
   * leaves the layout alone; then the corner is clamped.
   */
  lemma PanMovesOneCoordinate(d: Dims, s: Session, hd: Heading, m: Modifier, now: int, fileOpens: bool)
    requires Consistent(d, s) && d.n >= 2
    ensures var r := KeyPress(d, s, Pan(hd, m), now, fileOpens);
      var moved := Move(s.lookingAt, hd, PanDistance(m));
      && (moved.x == s.lookingAt.x || moved.y == s.lookingAt.y)
      && (moved.x - s.lookingAt.x) + (moved.y - s.lookingAt.y) in {ViewStep / StepSize(m), -(ViewStep / StepSize(m))}
      && r.next.lookingAt == Coord(Clamp(moved.x, s.xbounds.lo, s.xbounds.hi), Clamp(moved.y, s.ybounds.lo, s.ybounds.hi))
      && r.next.folds == s.folds && r.next.offsets == s.offsets && r.next.coords == s.coords
      && r.render == Repaint(false)
  {
  }

  /**
   * A nudge with image i under the viewport moves one field of the offset of
   * junction max(0, i-1) by the step size, changes nothing else of the
   * layout, re-derives placement and bounds, and leaves images 0..max(0, i-1)
   * where they were.
   */
  lemma NudgeMovesOneOffset(d: Dims, s: Session, hd: Heading, m: Modifier, now: int, fileOpens: bool)
    requires Consistent(d, s) && d.n >= 2 && Hit(d, s) >= 0
    ensures var r := KeyPress(d, s, Nudge(hd, m), now, fileOpens);
      var j := Max(0, Hit(d, s) - 1);
      && j < d.n - 1
      && r.next.offsets == s.offsets[j := Move(s.offsets[j], hd, StepSize(m))]
      && (r.next.offsets[j].x == s.offsets[j].x || r.next.offsets[j].y == s.offsets[j].y)
      && (r.next.offsets[j].x - s.offsets[j].x) + (r.next.offsets[j].y - s.offsets[j].y) in {StepSize(m), -StepSize(m)}
      && r.next.folds == s.folds
      && Consistent(d, r.next)
      && r.next.coords[..j + 1] == s.coords[..j + 1]
      && r.render == Repaint(false)
  {
    var i := Hit(d, s);
    var j := Max(0, i - 1);
    var moved := Move(s.offsets[j], hd, StepSize(m));
    var ofs := s.offsets[j := moved];
    var s1 := Autosave(s, Nudge(hd, m), now, fileOpens);
    assert Hit(d, s1) == i;
    var t := NudgeBefore(d, s1, i, hd, m);
    assert t == Regenerate(d, s1, s.folds, ofs);
    var r := KeyPress(d, s, Nudge(hd, m), now, fileOpens);
    assert r == Finish(t, AutosaveDue(Nudge(hd, m), now, s.lastCoordDump) && fileOpens, false);
    assert r.next.offsets == ofs && r.next.folds == s.folds && r.next.coords == t.coords;
    assert ofs[j] == moved;
    EditDoesNotMoveEarlierImages(s.folds, s.offsets, d.width, d.height, j, s.folds[j], moved);
    assert s.folds[j := s.folds[j]] == s.folds;
  }

  /**
   * A fold with image i under the viewport, i not the last image, negates
   * the fold flag of junction i (the one after image i) and nothing else of
   * the layout, leaving images 0..i in place.
   */
  lemma FoldTogglesOneJunction(d: Dims, s: Session, now: int, fileOpens: bool)
    requires Consistent(d, s) && d.n >= 2 && 0 <= Hit(d, s) < d.n - 1
    ensures var r := KeyPress(d, s, Fold, now, fileOpens);
      var i := Hit(d, s);
      && r.next.folds == s.folds[i := !s.folds[i]]
      && r.next.offsets == s.offsets
      && Consistent(d, r.next)
      && r.next.coords[..i + 1] == s.coords[..i + 1]
      && r.render == Repaint(false)
  {
    var i := Hit(d, s);
    var s1 := Autosave(s, Fold, now, fileOpens);
    assert Hit(d, s1) == i;
    assert KeyPress(d, s, Fold, now, fileOpens).next == ClampLook(ToggleFoldAfter(d, s1, i));
    EditDoesNotMoveEarlierImages(s.folds, s.offsets, d.width, d.height, i, !s.folds[i], s.offsets[i]);
    assert s.offsets[i := s.offsets[i]] == s.offsets;
  }

  /**
   * A fold on the last image returns at once: nothing changes but a possible
   * autosave, and there is no clamp and no render.
   */
  lemma FoldOnLastImageReturns(d: Dims, s: Session, now: int, fileOpens: bool)
    requires Consistent(d, s) && d.n >= 2 && Hit(d, s) == d.n - 1
    ensures var r := KeyPress(d, s, Fold, now, fileOpens);
      && r.next == s.(lastCoordDump := r.next.lastCoordDump)
      && r.render == NoRepaint
  {
    var s1 := Autosave(s, Fold, now, fileOpens);
    assert Hit(d, s1) == Hit(d, s);
  }

  /**
   * With no image under the viewport, nudges and folds leave the layout as it
   * was; only the closing clamp (and an autosave) change the session.
   */
  lemma NoHitKeepsLayout(d: Dims, s: Session, cmd: Command, now: int, fileOpens: bool)
    requires Consistent(d, s) && d.n >= 2 && Hit(d, s) < 0
    requires cmd.Nudge? || cmd.Fold?
    ensures var r := KeyPress(d, s, cmd, now, fileOpens);
      r.next.folds == s.folds && r.next.offsets == s.offsets && r.next.coords == s.coords &&
      r.next == ClampLook(s).(lastCoordDump := r.next.lastCoordDump) &&
      r.render == Repaint(false)
  {
    var s1 := Autosave(s, cmd, now, fileOpens);
    assert Hit(d, s1) == Hit(d, s);
  }

  /**
   * A layout dump is written exactly by save, by export, and by any other
   * command but quit once more than 300 seconds have passed since the last
   * one, and only if its file opens; writing it records the time.
   */
  lemma DumpsAndAutosave(d: Dims, s: Session, cmd: Command, now: int, fileOpens: bool)
    requires Consistent(d, s) && d.n >= 2
    ensures var r := KeyPress(d, s, cmd, now, fileOpens);
      && (r.wrote <==> fileOpens && (cmd.SaveLayout? || cmd.Export? ||
                                     (!cmd.Quit? && now - s.lastCoordDump > AutosaveInterval)))
      && r.next.lastCoordDump == (if r.wrote then now else s.lastCoordDump)
      && (r.quit <==> cmd.Quit?)
      && (r.exported <==> cmd.Export?)
  {
  }

  /**
   * Only the zoom key renders zoomed out, and it changes nothing but what the
   * closing clamp changes; save does the same at 1:1, and export leaves the
   * session alone apart from the dump time and renders nothing into the view.
   */
  lemma ZoomAndSaveOnlyClamp(d: Dims, s: Session, cmd: Command, now: int, fileOpens: bool)
    requires Consistent(d, s) && d.n >= 2
    ensures var r := KeyPress(d, s, cmd, now, fileOpens);
      && (r.render == Repaint(true) <==> cmd.ZoomOut?)
      && (cmd.ZoomOut? || cmd.SaveLayout? ==> r.next == ClampLook(s).(lastCoordDump := r.next.lastCoordDump))
      && (cmd.Export? ==> r.next == s.(lastCoordDump := r.next.lastCoordDump) && r.render == NoRepaint)
  {
  }

  /**
   * Every key press keeps the derived state in step with the layout and, as
   * the session's pan range is never empty, leaves the viewport corner
   * within it.
   */
  lemma KeyPressKeepsInvariant(d: Dims, s: Session, cmd: Command, now: int, fileOpens: bool)
    requires SessionDims(d) && Consistent(d, s) && InBounds(s)
    ensures Consistent(d, KeyPress(d, s, cmd, now, fileOpens).next)
    ensures InBounds(KeyPress(d, s, cmd, now, fileOpens).next)
  {
    var r := KeyPress(d, s, cmd, now, fileOpens);
    if !cmd.Quit? {
      var s1 := Autosave(s, cmd, now, fileOpens);
      assert Consistent(d, s1) && InBounds(s1);
      match cmd {
        case Pan(hd, m) =>
          var t := s1.(lookingAt := Move(s1.lookingAt, hd, PanDistance(m)));
          assert r.next == ClampLook(t);
          ClampKeeps(d, t);
        case Nudge(hd, m) =>
          var i := Hit(d, s1);
          if i >= 0 {
            var t := NudgeBefore(d, s1, i, hd, m);
            assert r.next == ClampLook(t);
            ClampKeeps(d, t);
          }
        case Fold =>
          var i := Hit(d, s1);
          if 0 <= i < d.n - 1 {
            var t := ToggleFoldAfter(d, s1, i);
            assert r.next == ClampLook(t);
            ClampKeeps(d, t);
          }
        case _ =>
      }
    }
  }

  /** The closing clamp keeps a consistent session consistent and puts the corner in range. */
  lemma ClampKeeps(d: Dims, t: Session)
    requires SessionDims(d) && Consistent(d, t)
    ensures Consistent(d, ClampLook(t)) && InBounds(ClampLook(t))
  {
    BoundsNonEmpty(d, t);
  }

  /** In a session the pan range is never empty on either axis. */
  lemma BoundsNonEmpty(d: Dims, s: Session)
    requires SessionDims(d) && Consistent(d, s)
    ensures s.xbounds.lo <= s.xbounds.hi && s.ybounds.lo <= s.ybounds.hi
  {
    assert d.width / 3 <= d.width / 2;
    assert d.height / 5 <= d.height / 2;
    AxisBoundsNonEmpty(Xs(s.coords), d.width, d.viewportWidth);
    AxisBoundsNonEmpty(Ys(s.coords), d.height, d.viewportHeight);
  }

  /** One key press with the clock reading and whether a dump file would open. */
  datatype Event = Event(cmd: Command, now: int, fileOpens: bool)

  /** The session after a run of key presses; a quit ends the run. */
  function Run(d: Dims, s: Session, events: seq<Event>): Session
    requires SessionDims(d) && Consistent(d, s) && InBounds(s)
    decreases |events|
  {
    if events == [] then s
    else
      var e := events[0];
      KeyPressKeepsInvariant(d, s, e.cmd, e.now, e.fileOpens);
      var r := KeyPress(d, s, e.cmd, e.now, e.fileOpens);
      if r.quit then r.next else Run(d, r.next, events[1..])
  }

  /** After any run of commands the viewport corner is within the latest pan range. */
  lemma {:induction false} RunStaysInBounds(d: Dims, s: Session, events: seq<Event>)
    requires SessionDims(d) && Consistent(d, s) && InBounds(s)
    ensures Consistent(d, Run(d, s, events)) && InBounds(Run(d, s, events))
    decreases |events|
  {
    if events != [] {
      var e := events[0];
      KeyPressKeepsInvariant(d, s, e.cmd, e.now, e.fileOpens);
      var r := KeyPress(d, s, e.cmd, e.now, e.fileOpens);
      if !r.quit {
        RunStaysInBounds(d, r.next, events[1..]);
      }
    }
  }

  // ---------------------------------------------------------------------
  // Session start
  // ---------------------------------------------------------------------

  /**
   * The session `main` starts: the given layout, the viewport corner at
   * (-xpad, -ypad) so that image 0 sits in the middle of the viewport,
   * placement and bounds derived once.
   */
  function InitialSession(d: Dims, layout: LayoutText.Layout, now: int): (s: Session)
    requires SessionDims(d)
    requires |layout.folds| == d.n - 1 && |layout.offsets| == d.n - 1
    ensures Consistent(d, s)
    ensures s.folds == layout.folds && s.offsets == layout.offsets && s.lastCoordDump == now
    ensures s.lookingAt == Coord(-(d.width / 3), -(d.height / 5))
  {
    var start := Session(layout.folds, layout.offsets, [], Coord(-(d.width / 3), -(d.height / 5)),
                         Span(0, 0), Span(0, 0), now);
    Regenerate(d, start, layout.folds, layout.offsets)
  }

  /** The starting corner is within the starting pan range, whatever layout was loaded. */
  lemma InitialSessionInBounds(d: Dims, layout: LayoutText.Layout, now: int)
    requires SessionDims(d)
    requires |layout.folds| == d.n - 1 && |layout.offsets| == d.n - 1
    ensures InBounds(InitialSession(d, layout, now))
  {
    var s := InitialSession(d, layout, now);
    assert Xs(s.coords)[0] == 0 && Ys(s.coords)[0] == 0;
    SeqExtremes(Xs(s.coords));
    SeqExtremes(Ys(s.coords));
    assert d.width / 3 <= d.width / 2;
    assert d.height / 5 <= d.height / 2;
  }
}
