/** The path compiler of the canvas backend (`extrapolate` in
    Source/ART.Canvas.js): one pass over SVG-style path segments that emits
    at most one canvas drawing command per segment and collects every emitted
    coordinate, from which it builds a bounding box.

    The pass is specified by the pure functions `Step` (one segment) and
    `Run` (a whole list); `Extrapolate` is the loop itself, proved to compute
    `Compile`. Coordinates are `real`s: the source's floating point is not
    modelled. */
module PathCompiler {
  import opened Wrappers

  /** A segment's command, by its lower-cased letter, with its arguments. */
  datatype Op =
    | Move(x: real, y: real)                                          // m
    | Line(x: real, y: real)                                          // l
    | Cubic(x1: real, y1: real, x2: real, y2: real, x: real, y: real) // c
    | SmoothCubic(x2: real, y2: real, x: real, y: real)               // s
    | Quad(x1: real, y1: real, x: real, y: real)                      // q
    | SmoothQuad(x: real, y: real)                                    // t
    | EllipticArc(rx: real, ry: real, rotation: real,
                  large: real, sweep: real, x: real, y: real)         // a
    | Horizontal(x: real)                                             // h
    | Vertical(y: real)                                               // v
    | ClosePath                                                       // z
    | Unknown                                                         // any other letter

  /** One segment: `relative` holds when the command letter is lower case. */
  datatype Segment = Segment(op: Op, relative: bool)

  /** The drawing commands the compiler emits, one per constructor of the
      source (`moveTo`, `lineTo`, `curveTo`, `arc`, `close`).
      `LineToJoined(x, y)` is the call `lineTo(x + ',' + y)` that the
      degenerate-arc branch makes: one string argument and no `y`. */
  datatype Command =
    | MoveTo(x: real, y: real)
    | LineTo(x: real, y: real)
    | LineToJoined(x: real, y: real)
    | CurveTo(cp1x: real, cp1y: real, cp2x: real, cp2y: real, x: real, y: real)
    | Arc(x: real, y: real, radius: real, startAngle: real, endAngle: real, anticlockwise: bool)
    | Close

  /** Arguments of `calculateArc(rx, ry, rotation, large, clockwise, x, y, tX, tY)`. */
  datatype ArcInput = ArcInput(rx: real, ry: real, rotation: real, large: real,
                               clockwise: real, x: real, y: real, tX: real, tY: real)

  /** The part of `calculateArc`'s result that the compiler reads. */
  datatype ArcGeometry = ArcGeometry(start: real, end: real, centerX: real, centerY: real,
                                     boundsX: (real, real), boundsY: (real, real))

  /** `calculateArc`'s trigonometry, left uninterpreted: every result below
      holds for any solver. */
  type ArcSolver = ArcInput -> ArcGeometry

  datatype Point = Point(x: real, y: real)

  datatype Box = Box(left: real, top: real, right: real, bottom: real, width: real, height: real)

  /** The compiler's loop variables: current point `X,Y`, previous control
      point `px,py`, subpath start `inX,inY` (`None` for `inX == null`), the
      emitted commands and the recorded coordinates. */
  datatype State = State(x: real, y: real, px: real, py: real, start: Option<Point>,
                         path: seq<Command>, boundsX: seq<real>, boundsY: seq<real>)

  datatype Compiled = Compiled(commands: seq<Command>, box: Box)

  const Initial: State := State(0.0, 0.0, 0.0, 0.0, None, [], [], [])

  /** `reflect(sx, sy, ex, ey)`: the mirror image of `(sx, sy)` about `(ex, ey)`. */
  function Reflect(sx: real, sy: real, ex: real, ey: real): (r: Point)
    ensures r.x + sx == 2.0 * ex && r.y + sy == 2.0 * ey
  {
    Point(ex * 2.0 - sx, ey * 2.0 - sy)
  }

  /** The commands after which `(px, py)` is NOT reset to the current point. */
  predicate IsCurve(op: Op) {
    op.Cubic? || op.SmoothCubic? || op.Quad? || op.SmoothQuad?
  }

  /** The commands before which an unset subpath start is set. */
  predicate Opens(op: Op) {
    !op.Move? && !op.ClosePath?
  }

  /** The degenerate-arc test: a zero radius argument, or an endpoint equal
      to the current point. */
  predicate DegenerateArc(rx: real, ry: real, ex: real, ey: real, x: real, y: real) {
    rx == 0.0 || ry == 0.0 || (ex == x && ey == y)
  }

  /** Appends one command and the coordinates it records. */
  function Emit(s: State, c: Command, xs: seq<real>, ys: seq<real>): State {
    s.(path := s.path + [c], boundsX := s.boundsX + xs, boundsY := s.boundsY + ys)
  }

  /** The `switch` of one iteration, for the reference point `(refX, refY)`
      (the current point for a relative segment, the origin otherwise). */
  function Apply(s: State, op: Op, refX: real, refY: real, solve: ArcSolver): State {
    match op
    case Move(x, y) => MovedTo(s, refX + x, refY + y)
    case Line(x, y) => LinedTo(s, refX + x, refY + y)
    case Cubic(x1, y1, x2, y2, x, y) =>
      CurvedTo(s, refX + x1, refY + y1, refX + x2, refY + y2, refX + x, refY + y)
    case SmoothCubic(x2, y2, x, y) =>
      var r := Reflect(s.px, s.py, s.x, s.y);
      CurvedTo(s, r.x, r.y, refX + x2, refY + y2, refX + x, refY + y)
    case Quad(x1, y1, x, y) => QuadTo(s, refX + x1, refY + y1, refX + x, refY + y)
    case SmoothQuad(x, y) =>
      var r := Reflect(s.px, s.py, s.x, s.y);
      QuadTo(s, r.x, r.y, refX + x, refY + y)
    case EllipticArc(rx, ry, rotation, large, sweep, x, y) =>
      ArcTo(s, rx, ry, rotation, large, sweep, refX + x, refY + y, solve)
    case Horizontal(x) => LinedTo(s, refX + x, s.y)
    case Vertical(y) => LinedTo(s, s.x, refY + y)
    case ClosePath => Closed(s)
    case Unknown => s
  }

  /** `m`: move the current point, recording it. */
  function MovedTo(s: State, x: real, y: real): State {
    Emit(s.(x := x, y := y), MoveTo(x, y), [x], [y])
  }

  /** `l`, `h` and `v`: a line to `(x, y)`, recording it. */
  function LinedTo(s: State, x: real, y: real): State {
    Emit(s.(x := x, y := y), LineTo(x, y), [x], [y])
  }

  /** `c` and `s`: a cubic; its second control point becomes `(px, py)`. */
  function CurvedTo(s: State, c1x: real, c1y: real, c2x: real, c2y: real, x: real, y: real): State {
    Emit(s.(x := x, y := y, px := c2x, py := c2y),
         CurveTo(c1x, c1y, c2x, c2y, x, y), [c1x, c2x, x], [c1y, c2y, y])
  }

  /** `q` and `t`: a quadratic through control point `(qx, qy)` to `(x, y)`,
      emitted as a cubic; `(qx, qy)` becomes `(px, py)`. */
  function QuadTo(s: State, qx: real, qy: real, x: real, y: real): State {
    var c1x, c1y := (s.x + qx * 2.0) / 3.0, (s.y + qy * 2.0) / 3.0;
    var c2x, c2y := (x + qx * 2.0) / 3.0, (y + qy * 2.0) / 3.0;
    Emit(s.(x := x, y := y, px := qx, py := qy),
         CurveTo(c1x, c1y, c2x, c2y, x, y), [c1x, c2x, x], [c1y, c2y, y])
  }

  /** `a` to the resolved endpoint `(ex, ey)`. */
  function ArcTo(s: State, rx: real, ry: real, rotation: real, large: real, sweep: real,
                 ex: real, ey: real, solve: ArcSolver): State {
    if DegenerateArc(rx, ry, ex, ey, s.x, s.y) then
      Emit(s.(x := ex, y := ey), LineToJoined(ex, ey), [ex], [ey])
    else
      // the source passes v[0] for both radii
      var g := solve(ArcInput(rx, rx, rotation, large, sweep, ex, ey, s.x, s.y));
      Emit(s.(x := ex, y := ey),
           Arc(g.centerX, g.centerY, rx, g.start, g.end, sweep == 0.0),
           [g.boundsX.0, g.boundsX.1, s.x, ex], [g.boundsY.0, g.boundsY.1, s.y, ey])
  }

  /** `z`: close an open subpath and return to its start. */
  function Closed(s: State): State {
    if s.start.Some? then
      s.(x := s.start.value.x, y := s.start.value.y, start := None, path := s.path + [Close])
    else s
  }

  /** One iteration of the compiler's loop. */
  function Step(s: State, seg: Segment, solve: ArcSolver): (r: State)
    ensures |r.boundsX| - |s.boundsX| == |r.boundsY| - |s.boundsY|
    ensures |s.path| <= |r.path| <= |s.path| + 1
  {
    var refX := if seg.relative then s.x else 0.0;
    var refY := if seg.relative then s.y else 0.0;
    var entered := if Opens(seg.op) && s.start.None? then s.(start := Some(Point(s.x, s.y))) else s;
    var t := Apply(entered, seg.op, refX, refY, solve);
    if IsCurve(seg.op) then t else t.(px := t.x, py := t.y)
  }

  /** The loop run over a whole segment list, from the initial state. */
  function Run(parts: seq<Segment>, solve: ArcSolver): (r: State)
    ensures |r.boundsX| == |r.boundsY|
    ensures |r.path| <= |parts|
  {
    if parts == [] then Initial
    else Step(Run(parts[..|parts| - 1], solve), parts[|parts| - 1], solve)
  }

  lemma RunSnoc(parts: seq<Segment>, i: nat, solve: ArcSolver)
    requires i < |parts|
    ensures Run(parts[..i + 1], solve) == Step(Run(parts[..i], solve), parts[i], solve)
  {
    assert parts[..i + 1][..i] == parts[..i];
  }

  function Max(s: seq<real>): (m: real)
    requires s != []
    ensures m in s && forall i :: 0 <= i < |s| ==> s[i] <= m
  {
    if |s| == 1 then s[0]
    else var m := Max(s[1..]); if s[0] < m then m else s[0]
  }

  function Min(s: seq<real>): (m: real)
    requires s != []
    ensures m in s && forall i :: 0 <= i < |s| ==> m <= s[i]
  {
    if |s| == 1 then s[0]
    else var m := Min(s[1..]); if m < s[0] then m else s[0]
  }

  /** The bounding box of the recorded coordinates: all zeros when none was
      recorded, otherwise their extremes. */
  function BoxOf(xs: seq<real>, ys: seq<real>): (b: Box)
    requires |xs| == |ys|
    ensures xs == [] ==> b == Box(0.0, 0.0, 0.0, 0.0, 0.0, 0.0)
    ensures xs != [] ==> b.left in xs && b.right in xs && b.top in ys && b.bottom in ys
    ensures forall i :: 0 <= i < |xs| ==> b.left <= xs[i] <= b.right
    ensures forall i :: 0 <= i < |ys| ==> b.top <= ys[i] <= b.bottom
    ensures b.width == b.right - b.left && b.width >= 0.0
    ensures b.height == b.bottom - b.top && b.height >= 0.0
  {
    if xs == [] then Box(0.0, 0.0, 0.0, 0.0, 0.0, 0.0)
    else
      var right, bottom, left, top := Max(xs), Max(ys), Min(xs), Min(ys);
      Box(left, top, right, bottom, right - left, bottom - top)
  }

  /** What `extrapolate(parts)` returns. */
  function Compile(parts: seq<Segment>, solve: ArcSolver): Compiled {
    var s := Run(parts, solve);
    Compiled(s.path, BoxOf(s.boundsX, s.boundsY))
  }

  // The methods below are the imperative loop body of `extrapolate` on the
  // source's loop variables. They are not a second definition: each one is
  // proved equal to its specification function (`Step`, `Apply`, `QuadTo`,
  // `ArcTo`), and `Extrapolate` runs them.

  /** The body of `extrapolate`'s loop for one segment, on the loop
      variables held in `st`: the reference point, the subpath start, the
      `switch`, then the reset of `(px, py)`. */
  method Advance(st: State, seg: Segment, solve: ArcSolver) returns (next: State)
    ensures next == Step(st, seg, solve)
  {
    var refX := if seg.relative then st.x else 0.0;
    var refY := if seg.relative then st.y else 0.0;
    var entered := st;
    if Opens(seg.op) && st.start == None {
      entered := st.(start := Some(Point(st.x, st.y)));
    }
    next := Dispatch(entered, seg.op, refX, refY, solve);
    if !IsCurve(seg.op) {
      next := next.(px := next.x, py := next.y);
    }
  }

  /** The `switch` of `extrapolate`'s loop. */
  method Dispatch(st: State, op: Op, refX: real, refY: real, solve: ArcSolver) returns (next: State)
    ensures next == Apply(st, op, refX, refY, solve)
  {
    var X, Y, px, py := st.x, st.y, st.px, st.py;
    var path, boundsX, boundsY := st.path, st.boundsX, st.boundsY;
    match op {
      case Move(x, y) =>
        X, Y := refX + x, refY + y;
        path := path + [MoveTo(X, Y)];
        boundsX, boundsY := boundsX + [X], boundsY + [Y];
        next := st.(x := X, y := Y, path := path, boundsX := boundsX, boundsY := boundsY);
      case Line(x, y) =>
        X, Y := refX + x, refY + y;
        path := path + [LineTo(X, Y)];
        boundsX, boundsY := boundsX + [X], boundsY + [Y];
        next := st.(x := X, y := Y, path := path, boundsX := boundsX, boundsY := boundsY);
      case Cubic(x1, y1, x2, y2, x, y) =>
        px, py := refX + x2, refY + y2;
        var c1x, c1y := refX + x1, refY + y1;
        X, Y := refX + x, refY + y;
        path := path + [CurveTo(c1x, c1y, px, py, X, Y)];
        boundsX, boundsY := boundsX + [c1x, px, X], boundsY + [c1y, py, Y];
        next := State(X, Y, px, py, st.start, path, boundsX, boundsY);
      case SmoothCubic(x2, y2, x, y) =>
        var r := Reflect(px, py, X, Y);
        px, py := refX + x2, refY + y2;
        X, Y := refX + x, refY + y;
        path := path + [CurveTo(r.x, r.y, px, py, X, Y)];
        boundsX, boundsY := boundsX + [r.x, px, X], boundsY + [r.y, py, Y];
        next := State(X, Y, px, py, st.start, path, boundsX, boundsY);
      case Quad(x1, y1, x, y) =>
        next := Quadratic(st, refX + x1, refY + y1, refX + x, refY + y);
      case SmoothQuad(x, y) =>
        var r := Reflect(px, py, X, Y);
        next := Quadratic(st, r.x, r.y, refX + x, refY + y);
      case EllipticArc(rx, ry, rotation, large, sweep, x, y) =>
        next := EllipticArcTo(st, rx, ry, rotation, large, sweep, refX + x, refY + y, solve);
      case Horizontal(x) =>
        X := refX + x;
        path := path + [LineTo(X, Y)];
        boundsX, boundsY := boundsX + [X], boundsY + [Y];
        next := st.(x := X, path := path, boundsX := boundsX, boundsY := boundsY);
      case Vertical(y) =>
        Y := refY + y;
        path := path + [LineTo(X, Y)];
        boundsX, boundsY := boundsX + [X], boundsY + [Y];
        next := st.(y := Y, path := path, boundsX := boundsX, boundsY := boundsY);
      case ClosePath =>
        next := st;
        if st.start.Some? {
          path := path + [Close];
          X, Y := st.start.value.x, st.start.value.y;
          next := st.(x := X, y := Y, start := None, path := path);
        }
      case Unknown =>
        next := st;
    }
  }

  /** The shared body of `q` and `t`: control point `(qx, qy)`, endpoint
      `(ex, ey)`. */
  method Quadratic(st: State, qx: real, qy: real, ex: real, ey: real) returns (next: State)
    ensures next == QuadTo(st, qx, qy, ex, ey)
  {
    var X, Y, px, py := st.x, st.y, qx, qy;
    var c1x, c1y := (X + px * 2.0) / 3.0, (Y + py * 2.0) / 3.0;
    X, Y := ex, ey;
    var c2x, c2y := (X + px * 2.0) / 3.0, (Y + py * 2.0) / 3.0;
    next := State(X, Y, px, py, st.start, st.path + [CurveTo(c1x, c1y, c2x, c2y, X, Y)],
                  st.boundsX + [c1x, c2x, X], st.boundsY + [c1y, c2y, Y]);
  }

  /** The body of `a` for the resolved endpoint `(ex, ey)`; `(px, py)` holds
      the endpoint here, as in the source, and is reset by the caller. */
  method EllipticArcTo(st: State, rx: real, ry: real, rotation: real, large: real, sweep: real,
                       ex: real, ey: real, solve: ArcSolver) returns (next: State)
    ensures next == ArcTo(st, rx, ry, rotation, large, sweep, ex, ey, solve)
  {
    var X, Y, px, py := st.x, st.y, ex, ey;
    var path, boundsX, boundsY := st.path, st.boundsX, st.boundsY;
    if rx == 0.0 || ry == 0.0 || (px == X && py == Y) {
      X, Y := px, py;
      path := path + [LineToJoined(X, Y)];
      boundsX, boundsY := boundsX + [X], boundsY + [Y];
    } else {
      var g := solve(ArcInput(rx, rx, rotation, large, sweep, px, py, X, Y));
      boundsX, boundsY := boundsX + [g.boundsX.0, g.boundsX.1], boundsY + [g.boundsY.0, g.boundsY.1];
      path := path + [Arc(g.centerX, g.centerY, rx, g.start, g.end, sweep == 0.0)];
      boundsX, boundsY := boundsX + [X], boundsY + [Y];
      X, Y := px, py;
      boundsX, boundsY := boundsX + [X], boundsY + [Y];
    }
    next := st.(x := X, y := Y, path := path, boundsX := boundsX, boundsY := boundsY);
  }

  /** `extrapolate`: the compiler's loop over the segments. */
  method Extrapolate(parts: seq<Segment>, solve: ArcSolver) returns (path: seq<Command>, box: Box)
    ensures Compiled(path, box) == Compile(parts, solve)
  {
    var st := Initial;
    var i := 0;
    while i < |parts|
      invariant 0 <= i <= |parts|
      invariant st == Run(parts[..i], solve)
    {
      st := Advance(st, parts[i], solve);
      RunSnoc(parts, i, solve);
      i := i + 1;
    }
    assert parts[..i] == parts;
    path := st.path;
    box := BoxOf(st.boundsX, st.boundsY);
  }
}
