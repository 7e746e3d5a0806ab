/** Properties of the path compiler: relative against absolute coordinates,
    the shorthand curves, arcs, closing, and the bounding box. */
module PathProperties {
  import opened Wrappers
  import opened PathCompiler

  // ---------------------------------------------------------------------
  // Relative and absolute coordinates

  /** The op with every endpoint and control coordinate moved by `(dx, dy)`;
      radii, rotation and flags of an arc are not coordinates. */
  function Shift(op: Op, dx: real, dy: real): Op {
    match op
    case Move(x, y) => Move(x + dx, y + dy)
    case Line(x, y) => Line(x + dx, y + dy)
    case Cubic(x1, y1, x2, y2, x, y) => Cubic(x1 + dx, y1 + dy, x2 + dx, y2 + dy, x + dx, y + dy)
    case SmoothCubic(x2, y2, x, y) => SmoothCubic(x2 + dx, y2 + dy, x + dx, y + dy)
    case Quad(x1, y1, x, y) => Quad(x1 + dx, y1 + dy, x + dx, y + dy)
    case SmoothQuad(x, y) => SmoothQuad(x + dx, y + dy)
    case EllipticArc(rx, ry, rotation, large, sweep, x, y) =>
      EllipticArc(rx, ry, rotation, large, sweep, x + dx, y + dy)
    case Horizontal(x) => Horizontal(x + dx)
    case Vertical(y) => Vertical(y + dy)
    case ClosePath => ClosePath
    case Unknown => Unknown
  }

  /** The upper-case form of a segment met at current point `(x, y)`. */
  function Absolute(seg: Segment, x: real, y: real): (r: Segment)
    ensures !r.relative
  {
    if seg.relative then Segment(Shift(seg.op, x, y), false) else seg
  }

  /** A lower-case segment adds the current point to its coordinates: it
      does exactly what its upper-case form, with the current point added
      beforehand, does. */
  lemma RelativeIsShiftedAbsolute(s: State, seg: Segment, solve: ArcSolver)
    ensures Step(s, Absolute(seg, s.x, s.y), solve) == Step(s, seg, solve)
  {
  }

  /** The whole list rewritten in absolute coordinates, each segment shifted
      by the current point the compiler holds when it reaches it. */
  function ToAbsolute(parts: seq<Segment>, solve: ArcSolver): (r: seq<Segment>)
    ensures |r| == |parts|
    ensures forall i :: 0 <= i < |r| ==> !r[i].relative
  {
    if parts == [] then []
    else
      var init := parts[..|parts| - 1];
      var s := Run(init, solve);
      ToAbsolute(init, solve) + [Absolute(parts[|parts| - 1], s.x, s.y)]
  }

  /** Compiling the absolute rewriting gives the same commands and box. */
  lemma {:induction false} ToAbsoluteCompilesAlike(parts: seq<Segment>, solve: ArcSolver)
    ensures Run(ToAbsolute(parts, solve), solve) == Run(parts, solve)
    ensures Compile(ToAbsolute(parts, solve), solve) == Compile(parts, solve)
  {
    if parts != [] {
      var init := parts[..|parts| - 1];
      var abs := ToAbsolute(parts, solve);
      ToAbsoluteCompilesAlike(init, solve);
      assert abs[..|abs| - 1] == ToAbsolute(init, solve);
      RelativeIsShiftedAbsolute(Run(init, solve), parts[|parts| - 1], solve);
    }
  }

  /** `h` moves along x only and `v` along y only. */
  lemma HorizontalKeepsY(s: State, x: real, relative: bool, solve: ArcSolver)
    ensures var r := Step(s, Segment(Horizontal(x), relative), solve);
      && r.y == s.y
      && r.x == (if relative then s.x + x else x)
      && r.path == s.path + [LineTo(r.x, s.y)]
  {
  }

  lemma VerticalKeepsX(s: State, y: real, relative: bool, solve: ArcSolver)
    ensures var r := Step(s, Segment(Vertical(y), relative), solve);
      && r.x == s.x
      && r.y == (if relative then s.y + y else y)
      && r.path == s.path + [LineTo(s.x, r.y)]
  {
  }

  // ---------------------------------------------------------------------
  // Curves

  /** Reflecting twice about the same point gives the original point back. */
  lemma ReflectInvolutive(sx: real, sy: real, ex: real, ey: real)
    ensures var r := Reflect(sx, sy, ex, ey); Reflect(r.x, r.y, ex, ey) == Point(sx, sy)
  {
  }

  /** `s`: the first control point is `2·(X,Y) − (px,py)`; the second one
      becomes `(px, py)`. */
  lemma SmoothCubicReflects(s: State, x2: real, y2: real, x: real, y: real,
                            relative: bool, solve: ArcSolver)
    ensures var r := Step(s, Segment(SmoothCubic(x2, y2, x, y), relative), solve);
      var dx, dy := if relative then s.x else 0.0, if relative then s.y else 0.0;
      && r.path == s.path + [CurveTo(2.0 * s.x - s.px, 2.0 * s.y - s.py, dx + x2, dy + y2, dx + x, dy + y)]
      && r.px == dx + x2 && r.py == dy + y2
  {
  }

  /** `(px, py)` is not reset after any curve letter, so an `s` that follows
      a `q` reflects the quadratic's control point `Q`, not a cubic control
      and not the current point. */
  lemma SmoothCubicAfterQuadReflectsQ(s: State, qx: real, qy: real, x: real, y: real,
                                      x2: real, y2: real, ex: real, ey: real, solve: ArcSolver)
    ensures var q := Step(s, Segment(Quad(qx, qy, x, y), false), solve);
      var r := Step(q, Segment(SmoothCubic(x2, y2, ex, ey), false), solve);
      && |r.path| == |s.path| + 2
      && r.path[|r.path| - 1] == CurveTo(2.0 * x - qx, 2.0 * y - qy, x2, y2, ex, ey)
  {
    var q := Step(s, Segment(Quad(qx, qy, x, y), false), solve);
    QuadEmitsCubic(s, qx, qy, x, y, false, solve);
    SmoothCubicReflects(q, x2, y2, ex, ey, false, solve);
  }

  /** `t`: the implied control point is `Q = 2·(X,Y) − (px,py)`; it is kept as
      `(px, py)`. */
  lemma SmoothQuadReflects(s: State, x: real, y: real, relative: bool, solve: ArcSolver)
    ensures var r := Step(s, Segment(SmoothQuad(x, y), relative), solve);
      var dx, dy := if relative then s.x else 0.0, if relative then s.y else 0.0;
      && r.px == 2.0 * s.x - s.px && r.py == 2.0 * s.y - s.py
      && r.x == dx + x && r.y == dy + y
      && r.path == s.path + [QuadCurve(s.x, s.y, r.px, r.py, r.x, r.y)]
  {
  }

  /** The cubic that draws the quadratic from `(x0, y0)` through `(qx, qy)`
      to `(x, y)`: controls `(P0 + 2Q)/3` and `(P2 + 2Q)/3`. */
  function QuadCurve(x0: real, y0: real, qx: real, qy: real, x: real, y: real): Command {
    CurveTo((x0 + 2.0 * qx) / 3.0, (y0 + 2.0 * qy) / 3.0, (x + 2.0 * qx) / 3.0, (y + 2.0 * qy) / 3.0, x, y)
  }

  /** `q`: a cubic with controls `(P0 + 2Q)/3`, `(P2 + 2Q)/3` ending at `P2`;
      `Q` is kept as `(px, py)`. */
  lemma QuadEmitsCubic(s: State, x1: real, y1: real, x: real, y: real,
                       relative: bool, solve: ArcSolver)
    ensures var r := Step(s, Segment(Quad(x1, y1, x, y), relative), solve);
      var dx, dy := if relative then s.x else 0.0, if relative then s.y else 0.0;
      && r.px == dx + x1 && r.py == dy + y1
      && r.x == dx + x && r.y == dy + y
      && r.path == s.path + [QuadCurve(s.x, s.y, dx + x1, dy + y1, dx + x, dy + y)]
  {
  }

  /** One coordinate of a quadratic Bézier curve at parameter `t`. */
  function QuadAt(p0: real, q: real, p2: real, t: real): real {
    (1.0 - t) * (1.0 - t) * p0 + 2.0 * (1.0 - t) * t * q + t * t * p2
  }

  /** One coordinate of a cubic Bézier curve at parameter `t`. */
  function CubicAt(p0: real, c1: real, c2: real, p3: real, t: real): real {
    (1.0 - t) * (1.0 - t) * (1.0 - t) * p0 + 3.0 * (1.0 - t) * (1.0 - t) * t * c1
      + 3.0 * (1.0 - t) * t * t * c2 + t * t * t * p3
  }

  /** The conversion loses nothing: the emitted cubic passes through the same
      points as the quadratic, at every parameter `t`. */
  lemma QuadCurveIsExact(x0: real, y0: real, qx: real, qy: real, x: real, y: real, t: real)
    ensures var c := QuadCurve(x0, y0, qx, qy, x, y);
      && CubicAt(x0, c.cp1x, c.cp2x, c.x, t) == QuadAt(x0, qx, x, t)
      && CubicAt(y0, c.cp1y, c.cp2y, c.y, t) == QuadAt(y0, qy, y, t)
  {
    DegreeElevation(x0, qx, x, t);
    DegreeElevation(y0, qy, y, t);
  }

  lemma DegreeElevation(p0: real, q: real, p2: real, t: real)
    ensures CubicAt(p0, (p0 + 2.0 * q) / 3.0, (p2 + 2.0 * q) / 3.0, p2, t) == QuadAt(p0, q, p2, t)
  {
    var u := 1.0 - t;
    assert u + t == 1.0;
    calc {
      CubicAt(p0, (p0 + 2.0 * q) / 3.0, (p2 + 2.0 * q) / 3.0, p2, t);
      u * u * u * p0 + u * u * t * (p0 + 2.0 * q) + u * t * t * (p2 + 2.0 * q) + t * t * t * p2;
      u * u * p0 * (u + t) + 2.0 * u * t * q * (u + t) + t * t * p2 * (u + t);
      QuadAt(p0, q, p2, t);
    }
  }

  /** After any command other than `c`, `s`, `q`, `t`, the previous control
      point is the current point. */
  lemma NonCurveResetsControl(s: State, seg: Segment, solve: ArcSolver)
    requires !IsCurve(seg.op)
    ensures var r := Step(s, seg, solve); r.px == r.x && r.py == r.y
  {
  }

  /** So an `s` right after such a command reflects onto the current point
      itself: its first control point is the current point. */
  lemma SmoothAfterNonCurve(s: State, first: Segment, x2: real, y2: real, x: real, y: real,
                            relative: bool, solve: ArcSolver)
    requires !IsCurve(first.op)
    ensures var t := Step(s, first, solve);
      var r := Step(t, Segment(SmoothCubic(x2, y2, x, y), relative), solve);
      |r.path| == |t.path| + 1 && r.path[|t.path|].CurveTo?
      && r.path[|t.path|].cp1x == t.x && r.path[|t.path|].cp1y == t.y
  {
    var t := Step(s, first, solve);
    NonCurveResetsControl(s, first, solve);
    SmoothCubicReflects(t, x2, y2, x, y, relative, solve);
  }

  // ---------------------------------------------------------------------
  // Arcs

  /** A degenerate `a` (a zero radius argument, or an endpoint equal to the
      current point) emits no arc: only the joined `lineTo` call, and it
      moves to and records the endpoint. */
  lemma DegenerateArcDrawsNoArc(s: State, rx: real, ry: real, rotation: real, large: real,
                                sweep: real, x: real, y: real, relative: bool, solve: ArcSolver)
    requires var ex, ey := (if relative then s.x else 0.0) + x, (if relative then s.y else 0.0) + y;
      DegenerateArc(rx, ry, ex, ey, s.x, s.y)
    ensures var ex, ey := (if relative then s.x else 0.0) + x, (if relative then s.y else 0.0) + y;
      var r := Step(s, Segment(EllipticArc(rx, ry, rotation, large, sweep, x, y), relative), solve);
      && r.path == s.path + [LineToJoined(ex, ey)]
      && r.x == ex && r.y == ey
      && r.boundsX == s.boundsX + [ex] && r.boundsY == s.boundsY + [ey]
  {
  }

  /** A proper `a` emits one arc of radius `rx` around the solver's center,
      anticlockwise exactly when the sweep flag is 0, and records the
      solver's extra bounds, its start point and its endpoint. */
  lemma ArcRecordsBothEnds(s: State, rx: real, ry: real, rotation: real, large: real,
                           sweep: real, x: real, y: real, relative: bool, solve: ArcSolver)
    requires var ex, ey := (if relative then s.x else 0.0) + x, (if relative then s.y else 0.0) + y;
      !DegenerateArc(rx, ry, ex, ey, s.x, s.y)
    ensures var ex, ey := (if relative then s.x else 0.0) + x, (if relative then s.y else 0.0) + y;
      var g := solve(ArcInput(rx, rx, rotation, large, sweep, ex, ey, s.x, s.y));
      var r := Step(s, Segment(EllipticArc(rx, ry, rotation, large, sweep, x, y), relative), solve);
      && r.path == s.path + [Arc(g.centerX, g.centerY, rx, g.start, g.end, sweep == 0.0)]
      && r.x == ex && r.y == ey
      && r.boundsX == s.boundsX + [g.boundsX.0, g.boundsX.1, s.x, ex]
      && r.boundsY == s.boundsY + [g.boundsY.0, g.boundsY.1, s.y, ey]
  {
  }

  /** The source passes the first radius argument for both radii: once the
      arc is not degenerate, the second radius has no effect at all. */
  lemma ArcIgnoresSecondRadius(s: State, rx: real, ry1: real, ry2: real, rotation: real,
                               large: real, sweep: real, x: real, y: real, relative: bool,
                               solve: ArcSolver)
    requires ry1 != 0.0 && ry2 != 0.0
    ensures Step(s, Segment(EllipticArc(rx, ry1, rotation, large, sweep, x, y), relative), solve)
         == Step(s, Segment(EllipticArc(rx, ry2, rotation, large, sweep, x, y), relative), solve)
  {
  }

  // ---------------------------------------------------------------------
  // Closing a subpath

  /** `z` on an open subpath emits `close`, returns to the subpath start and
      clears it; on a closed one it emits nothing and only resets `(px, py)`
      to the current point, as after every command but a curve. */
  lemma CloseReturnsToStart(s: State, relative: bool, solve: ArcSolver)
    ensures var r := Step(s, Segment(ClosePath, relative), solve);
      match s.start
      case Some(p) => r.path == s.path + [Close] && r.x == p.x && r.y == p.y && r.start == None
                      && r.px == p.x && r.py == p.y
                      && r.boundsX == s.boundsX && r.boundsY == s.boundsY
      case None => r == s.(px := s.x, py := s.y)
  {
  }

  /** A second `z` in a row does nothing. */
  lemma CloseTwiceIsCloseOnce(s: State, first: bool, second: bool, solve: ArcSolver)
    ensures var once := Step(s, Segment(ClosePath, first), solve);
      Step(once, Segment(ClosePath, second), solve) == once
  {
  }

  /** The subpath start is set at the first command other than `m` and `z`
      met while it is unset, to the current point just before that command;
      `m` and `z` leave an unset start unset. */
  lemma StartIsPointBeforeFirstDraw(s: State, seg: Segment, solve: ArcSolver)
    requires s.start == None
    ensures Step(s, seg, solve).start == if Opens(seg.op) then Some(Point(s.x, s.y)) else None
  {
  }

  /** Some command other than `m` and `z` has run since the last `z` (or
      since the start). */
  predicate OpenSubpath(parts: seq<Segment>) {
    exists i :: 0 <= i < |parts| && Opens(parts[i].op)
      && forall j :: i < j < |parts| ==> !parts[j].op.ClosePath?
  }

  /** An `m` leaves the subpath start alone: after `m` on an open subpath, a
      later `z` still returns to the point where that subpath began, not to
      the `m`'s target. */
  lemma MoveKeepsStart(s: State, x: real, y: real, relative: bool, solve: ArcSolver)
    ensures var r := Step(s, Segment(Move(x, y), relative), solve);
      && r.start == s.start
      && r.x == (if relative then s.x else 0.0) + x && r.y == (if relative then s.y else 0.0) + y
  {
  }

  /** Only `z` clears the subpath start; `Step` sets it on opening. */
  lemma ApplyStart(s: State, op: Op, refX: real, refY: real, solve: ArcSolver)
    ensures Apply(s, op, refX, refY, solve).start == if op.ClosePath? then None else s.start
  {
  }

  lemma StepStart(s: State, seg: Segment, solve: ArcSolver)
    ensures Step(s, seg, solve).start.Some?
        <==> !seg.op.ClosePath? && (Opens(seg.op) || s.start.Some?)
  {
    var entered := if Opens(seg.op) && s.start.None? then s.(start := Some(Point(s.x, s.y))) else s;
    var refX := if seg.relative then s.x else 0.0;
    var refY := if seg.relative then s.y else 0.0;
    ApplyStart(entered, seg.op, refX, refY, solve);
  }

  /** How one more segment changes whether a subpath is open. */
  lemma OpenSubpathSnoc(parts: seq<Segment>, seg: Segment)
    ensures OpenSubpath(parts + [seg])
        <==> !seg.op.ClosePath? && (Opens(seg.op) || OpenSubpath(parts))
  {
    var all := parts + [seg];
    var n := |parts|;
    if seg.op.ClosePath? {
      assert all[n] == seg;
    } else if Opens(seg.op) {
      assert Opens(all[n].op);
    } else {
      if OpenSubpath(parts) {
        var i :| 0 <= i < n && Opens(parts[i].op) && forall j :: i < j < n ==> !parts[j].op.ClosePath?;
        assert Opens(all[i].op) && forall j :: i < j < |all| ==> !all[j].op.ClosePath?;
      }
      if OpenSubpath(all) {
        var i :| 0 <= i < |all| && Opens(all[i].op) && forall j :: i < j < |all| ==> !all[j].op.ClosePath?;
        assert i < n;
        forall j | i < j < n
          ensures !parts[j].op.ClosePath?
        {
          assert all[j] == parts[j];
        }
        assert Opens(parts[i].op);
      }
    }
  }

  /** The compiler's subpath start is set exactly when a subpath is open. */
  lemma {:induction false} StartSetIffOpen(parts: seq<Segment>, solve: ArcSolver)
    ensures Run(parts, solve).start.Some? <==> OpenSubpath(parts)
  {
    if parts != [] {
      var n := |parts| - 1;
      StartSetIffOpen(parts[..n], solve);
      StepStart(Run(parts[..n], solve), parts[n], solve);
      OpenSubpathSnoc(parts[..n], parts[n]);
      assert parts[..n] + [parts[n]] == parts;
    }
  }

  /** Appending `z` adds `close` to the compiled list exactly when a subpath
      is open, and nothing otherwise. */
  lemma CloseEmitsIffOpen(parts: seq<Segment>, relative: bool, solve: ArcSolver)
    ensures var z := Segment(ClosePath, relative);
      Compile(parts + [z], solve).commands
        == Compile(parts, solve).commands + (if OpenSubpath(parts) then [Close] else [])
  {
    var z := Segment(ClosePath, relative);
    var s := Run(parts, solve);
    assert (parts + [z])[..|parts|] == parts;
    assert Run(parts + [z], solve) == Step(s, z, solve);
    assert Step(s, z, solve).path == s.path + (if s.start.Some? then [Close] else []);
    StartSetIffOpen(parts, solve);
  }

  // ---------------------------------------------------------------------
  // Commands per segment

  /** Does the op always emit a command? (`z` emits one only on an open
      subpath; an unknown letter never does.) */
  predicate Draws(op: Op) {
    !op.ClosePath? && !op.Unknown?
  }

  /** One command for each drawing segment, one for a `z` that closes,
      none otherwise. */
  lemma CommandsPerSegment(s: State, seg: Segment, solve: ArcSolver)
    ensures |Step(s, seg, solve).path|
         == |s.path| + (if Draws(seg.op) || (seg.op.ClosePath? && s.start.Some?) then 1 else 0)
  {
  }

  /** A list of upper-case `M`/`L` segments compiles to one command per
      segment, the last one at the last segment's coordinates. */
  lemma {:induction false} AbsoluteLinesEndAtLastPoint(parts: seq<Segment>, solve: ArcSolver)
    requires parts != []
    requires forall i :: 0 <= i < |parts| ==> (parts[i].op.Move? || parts[i].op.Line?) && !parts[i].relative
    ensures var r := Run(parts, solve); var last := parts[|parts| - 1].op;
      && |r.path| == |parts|
      && r.x == last.x && r.y == last.y
      && r.path[|parts| - 1] == (if last.Move? then MoveTo(last.x, last.y) else LineTo(last.x, last.y))
  {
    var n := |parts| - 1;
    if n > 0 {
      AbsoluteLinesEndAtLastPoint(parts[..n], solve);
    }
  }

  // ---------------------------------------------------------------------
  // The bounding box

  /** The points a command draws through (an arc's points are not among its
      arguments). */
  function Points(c: Command): seq<Point> {
    match c
    case MoveTo(x, y) => [Point(x, y)]
    case LineTo(x, y) => [Point(x, y)]
    case LineToJoined(x, y) => [Point(x, y)]
    case CurveTo(cp1x, cp1y, cp2x, cp2y, x, y) => [Point(cp1x, cp1y), Point(cp2x, cp2y), Point(x, y)]
    case Arc(_, _, _, _, _, _) => []
    case Close => []
  }

  /** Every point of every emitted command is among the recorded coordinates. */
  ghost predicate PointsRecorded(s: State) {
    forall k, p :: 0 <= k < |s.path| && p in Points(s.path[k]) ==> p.x in s.boundsX && p.y in s.boundsY
  }

  /** Emitting a command whose points are among the new coordinates keeps
      every point recorded. */
  lemma EmitKeepsPointsRecorded(s: State, c: Command, xs: seq<real>, ys: seq<real>)
    requires PointsRecorded(s)
    requires forall p :: p in Points(c) ==> p.x in xs && p.y in ys
    ensures PointsRecorded(Emit(s, c, xs, ys))
  {
    var r := Emit(s, c, xs, ys);
    forall k, p | 0 <= k < |r.path| && p in Points(r.path[k])
      ensures p.x in r.boundsX && p.y in r.boundsY
    {
      if k < |s.path| {
        assert r.path[k] == s.path[k];
      }
    }
  }

  lemma ApplyKeepsPointsRecorded(s: State, op: Op, refX: real, refY: real, solve: ArcSolver)
    requires PointsRecorded(s)
    ensures PointsRecorded(Apply(s, op, refX, refY, solve))
  {
    if IsCurve(op) {
      CurveKeepsPointsRecorded(s, op, refX, refY);
    } else {
      OtherKeepsPointsRecorded(s, op, refX, refY, solve);
    }
  }

  lemma CurveKeepsPointsRecorded(s: State, op: Op, refX: real, refY: real)
    requires PointsRecorded(s) && IsCurve(op)
    ensures forall solve :: PointsRecorded(Apply(s, op, refX, refY, solve))
  {
    match op
    case Cubic(x1, y1, x2, y2, x, y) =>
      CurvedToKeeps(s, refX + x1, refY + y1, refX + x2, refY + y2, refX + x, refY + y);
    case SmoothCubic(x2, y2, x, y) =>
      var r := Reflect(s.px, s.py, s.x, s.y);
      CurvedToKeeps(s, r.x, r.y, refX + x2, refY + y2, refX + x, refY + y);
    case Quad(x1, y1, x, y) => QuadToKeeps(s, refX + x1, refY + y1, refX + x, refY + y);
    case SmoothQuad(x, y) =>
      var r := Reflect(s.px, s.py, s.x, s.y);
      QuadToKeeps(s, r.x, r.y, refX + x, refY + y);
  }

  lemma OtherKeepsPointsRecorded(s: State, op: Op, refX: real, refY: real, solve: ArcSolver)
    requires PointsRecorded(s) && !IsCurve(op)
    ensures PointsRecorded(Apply(s, op, refX, refY, solve))
  {
    match op
    case Move(x, y) => MovedToKeeps(s, refX + x, refY + y);
    case Line(x, y) => LinedToKeeps(s, refX + x, refY + y);
    case EllipticArc(rx, ry, rotation, large, sweep, x, y) =>
      ArcToKeeps(s, rx, ry, rotation, large, sweep, refX + x, refY + y, solve);
    case Horizontal(x) => LinedToKeeps(s, refX + x, s.y);
    case Vertical(y) => LinedToKeeps(s, s.x, refY + y);
    case ClosePath => ClosedKeeps(s);
    case Unknown =>
  }

  lemma MovedToKeeps(s: State, x: real, y: real)
    requires PointsRecorded(s)
    ensures PointsRecorded(MovedTo(s, x, y))
  {
    EmitKeepsPointsRecorded(s.(x := x, y := y), MoveTo(x, y), [x], [y]);
  }

  lemma LinedToKeeps(s: State, x: real, y: real)
    requires PointsRecorded(s)
    ensures PointsRecorded(LinedTo(s, x, y))
  {
    EmitKeepsPointsRecorded(s.(x := x, y := y), LineTo(x, y), [x], [y]);
  }

  lemma ArcToKeeps(s: State, rx: real, ry: real, rotation: real, large: real, sweep: real,
                   ex: real, ey: real, solve: ArcSolver)
    requires PointsRecorded(s)
    ensures PointsRecorded(ArcTo(s, rx, ry, rotation, large, sweep, ex, ey, solve))
  {
    if DegenerateArc(rx, ry, ex, ey, s.x, s.y) {
      EmitKeepsPointsRecorded(s.(x := ex, y := ey), LineToJoined(ex, ey), [ex], [ey]);
    } else {
      var g := solve(ArcInput(rx, rx, rotation, large, sweep, ex, ey, s.x, s.y));
      EmitKeepsPointsRecorded(s.(x := ex, y := ey), Arc(g.centerX, g.centerY, rx, g.start, g.end, sweep == 0.0),
        [g.boundsX.0, g.boundsX.1, s.x, ex], [g.boundsY.0, g.boundsY.1, s.y, ey]);
    }
  }

  lemma ClosedKeeps(s: State)
    requires PointsRecorded(s)
    ensures PointsRecorded(Closed(s))
  {
    var r := Closed(s);
    forall k, p | 0 <= k < |r.path| && p in Points(r.path[k])
      ensures p.x in r.boundsX && p.y in r.boundsY
    {
      if k < |s.path| {
        assert r.path[k] == s.path[k];
      }
    }
  }

  lemma CurvedToKeeps(s: State, c1x: real, c1y: real, c2x: real, c2y: real, x: real, y: real)
    requires PointsRecorded(s)
    ensures PointsRecorded(CurvedTo(s, c1x, c1y, c2x, c2y, x, y))
  {
    EmitCurveKeeps(s.(x := x, y := y, px := c2x, py := c2y), CurveTo(c1x, c1y, c2x, c2y, x, y));
  }

  lemma QuadToKeeps(s: State, qx: real, qy: real, x: real, y: real)
    requires PointsRecorded(s)
    ensures PointsRecorded(QuadTo(s, qx, qy, x, y))
  {
    var c := CurveTo((s.x + qx * 2.0) / 3.0, (s.y + qy * 2.0) / 3.0, (x + qx * 2.0) / 3.0, (y + qy * 2.0) / 3.0, x, y);
    var moved := s.(x := x, y := y, px := qx, py := qy);
    EmitCurveKeeps(moved, c);
    assert QuadTo(s, qx, qy, x, y) == Emit(moved, c, [c.cp1x, c.cp2x, c.x], [c.cp1y, c.cp2y, c.y]);
  }

  /** Emitting a cubic that records its three points keeps every point recorded. */
  lemma EmitCurveKeeps(s: State, c: Command)
    requires PointsRecorded(s) && c.CurveTo?
    ensures PointsRecorded(Emit(s, c, [c.cp1x, c.cp2x, c.x], [c.cp1y, c.cp2y, c.y]))
  {
    EmitKeepsPointsRecorded(s, c, [c.cp1x, c.cp2x, c.x], [c.cp1y, c.cp2y, c.y]);
  }

  lemma StepKeepsPointsRecorded(s: State, seg: Segment, solve: ArcSolver)
    requires PointsRecorded(s)
    ensures PointsRecorded(Step(s, seg, solve))
  {
    var entered := if Opens(seg.op) && s.start.None? then s.(start := Some(Point(s.x, s.y))) else s;
    var refX := if seg.relative then s.x else 0.0;
    var refY := if seg.relative then s.y else 0.0;
    ApplyKeepsPointsRecorded(entered, seg.op, refX, refY, solve);
  }

  /** Commands are only appended. */
  lemma PathGrows(s: State, seg: Segment, solve: ArcSolver)
    ensures s.path <= Step(s, seg, solve).path
  {
  }

  /** Coordinates are only appended. */
  lemma BoundsGrow(s: State, seg: Segment, solve: ArcSolver)
    ensures s.boundsX <= Step(s, seg, solve).boundsX
    ensures s.boundsY <= Step(s, seg, solve).boundsY
  {
  }

  lemma {:induction false} RunPointsRecorded(parts: seq<Segment>, solve: ArcSolver)
    ensures PointsRecorded(Run(parts, solve))
  {
    if parts != [] {
      RunPointsRecorded(parts[..|parts| - 1], solve);
      StepKeepsPointsRecorded(Run(parts[..|parts| - 1], solve), parts[|parts| - 1], solve);
    }
  }

  /** Every point of every compiled command lies inside the compiled box. */
  lemma CommandPointsInBox(parts: seq<Segment>, solve: ArcSolver)
    ensures var c := Compile(parts, solve);
      forall k, p :: 0 <= k < |c.commands| && p in Points(c.commands[k]) ==>
        c.box.left <= p.x <= c.box.right && c.box.top <= p.y <= c.box.bottom
  {
    var c := Compile(parts, solve);
    RunPointsRecorded(parts, solve);
    forall k, p | 0 <= k < |c.commands| && p in Points(c.commands[k])
      ensures c.box.left <= p.x <= c.box.right && c.box.top <= p.y <= c.box.bottom
    {
      RecordedInBox(parts, p.x, p.y, solve);
    }
  }

  /** The recorded coordinates of a prefix are a prefix of the final ones. */
  lemma {:induction false} BoundsOfPrefix(parts: seq<Segment>, i: nat, solve: ArcSolver)
    requires i <= |parts|
    ensures Run(parts[..i], solve).boundsX <= Run(parts, solve).boundsX
    ensures Run(parts[..i], solve).boundsY <= Run(parts, solve).boundsY
  {
    if i < |parts| {
      var n := |parts| - 1;
      assert parts[..n][..i] == parts[..i];
      BoundsOfPrefix(parts[..n], i, solve);
      var before := Run(parts[..n], solve);
      BoundsGrow(before, parts[n], solve);
      assert Run(parts, solve) == Step(before, parts[n], solve);
      PrefixTransitive(Run(parts[..i], solve).boundsX, before.boundsX, Run(parts, solve).boundsX);
      PrefixTransitive(Run(parts[..i], solve).boundsY, before.boundsY, Run(parts, solve).boundsY);
    } else {
      assert parts[..i] == parts;
    }
  }

  lemma PrefixTransitive(a: seq<real>, b: seq<real>, c: seq<real>)
    requires a <= b && b <= c
    ensures a <= c
  {
  }

  /** A drawing segment records the point it reaches last; a proper arc
      records the point it starts from just before. */
  lemma ApplyRecordsReached(s: State, op: Op, refX: real, refY: real, solve: ArcSolver)
    requires Draws(op)
    ensures var r := Apply(s, op, refX, refY, solve);
      |r.boundsX| > |s.boundsX| && |r.boundsY| > |s.boundsY|
      && r.boundsX[|r.boundsX| - 1] == r.x && r.boundsY[|r.boundsY| - 1] == r.y
    ensures var r := Apply(s, op, refX, refY, solve);
      op.EllipticArc? && !DegenerateArc(op.rx, op.ry, refX + op.x, refY + op.y, s.x, s.y) ==>
      |r.boundsX| > |s.boundsX| + 1 && |r.boundsY| > |s.boundsY| + 1
      && r.boundsX[|r.boundsX| - 2] == s.x && r.boundsY[|r.boundsY| - 2] == s.y
  {
  }

  lemma StepRecordsReached(s: State, seg: Segment, solve: ArcSolver)
    requires Draws(seg.op)
    ensures var r := Step(s, seg, solve);
      |r.boundsX| > |s.boundsX| && |r.boundsY| > |s.boundsY|
      && r.boundsX[|r.boundsX| - 1] == r.x && r.boundsY[|r.boundsY| - 1] == r.y
  {
    var entered := if Opens(seg.op) && s.start.None? then s.(start := Some(Point(s.x, s.y))) else s;
    var refX := if seg.relative then s.x else 0.0;
    var refY := if seg.relative then s.y else 0.0;
    ApplyRecordsReached(entered, seg.op, refX, refY, solve);
  }

  /** Segment `seg`, taken in state `s`, is an arc that is not degenerate. */
  predicate ProperArc(s: State, seg: Segment) {
    && seg.op.EllipticArc?
    && !DegenerateArc(seg.op.rx, seg.op.ry, (if seg.relative then s.x else 0.0) + seg.op.x,
                      (if seg.relative then s.y else 0.0) + seg.op.y, s.x, s.y)
  }

  lemma StepRecordsArcStart(s: State, seg: Segment, solve: ArcSolver)
    requires ProperArc(s, seg)
    ensures var r := Step(s, seg, solve);
      |r.boundsX| > |s.boundsX| + 1 && |r.boundsY| > |s.boundsY| + 1
      && r.boundsX[|r.boundsX| - 2] == s.x && r.boundsY[|r.boundsY| - 2] == s.y
  {
    var entered := if Opens(seg.op) && s.start.None? then s.(start := Some(Point(s.x, s.y))) else s;
    var refX := if seg.relative then s.x else 0.0;
    var refY := if seg.relative then s.y else 0.0;
    ApplyRecordsReached(entered, seg.op, refX, refY, solve);
  }

  /** An element of a prefix is an element of the whole. */
  lemma InPrefix(a: seq<real>, b: seq<real>, i: nat)
    requires a <= b && i < |a|
    ensures a[i] in b
  {
    assert b[i] == a[i];
  }

  /** A recorded pair of coordinates lies inside the compiled box. */
  lemma RecordedInBox(parts: seq<Segment>, v: real, w: real, solve: ArcSolver)
    requires v in Run(parts, solve).boundsX && w in Run(parts, solve).boundsY
    ensures var b := Compile(parts, solve).box; b.left <= v <= b.right && b.top <= w <= b.bottom
  {
  }

  /** The compiled box contains the point reached by every drawing segment. */
  lemma ReachedPointInBox(parts: seq<Segment>, i: nat, solve: ArcSolver)
    requires i < |parts| && Draws(parts[i].op)
    ensures var b := Compile(parts, solve).box; var r := Run(parts[..i + 1], solve);
      b.left <= r.x <= b.right && b.top <= r.y <= b.bottom
  {
    RunSnoc(parts, i, solve);
    var r := Run(parts[..i + 1], solve);
    var all := Run(parts, solve);
    BoundsOfPrefix(parts, i + 1, solve);
    StepRecordsReached(Run(parts[..i], solve), parts[i], solve);
    InPrefix(r.boundsX, all.boundsX, |r.boundsX| - 1);
    InPrefix(r.boundsY, all.boundsY, |r.boundsY| - 1);
    RecordedInBox(parts, r.x, r.y, solve);
  }

  /** A proper arc's start point is inside the compiled box too. */
  lemma ArcStartInBox(parts: seq<Segment>, i: nat, solve: ArcSolver)
    requires i < |parts| && ProperArc(Run(parts[..i], solve), parts[i])
    ensures var b := Compile(parts, solve).box; var s := Run(parts[..i], solve);
      b.left <= s.x <= b.right && b.top <= s.y <= b.bottom
  {
    var s := Run(parts[..i], solve);
    RunSnoc(parts, i, solve);
    var r := Run(parts[..i + 1], solve);
    var all := Run(parts, solve);
    BoundsOfPrefix(parts, i + 1, solve);
    StepRecordsArcStart(s, parts[i], solve);
    InPrefix(r.boundsX, all.boundsX, |r.boundsX| - 2);
    InPrefix(r.boundsY, all.boundsY, |r.boundsY| - 2);
    RecordedInBox(parts, s.x, s.y, solve);
  }
}
