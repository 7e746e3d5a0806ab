# ART canvas backend: path compiler, repaint scheduler, scene tree and hit testing

This project models the core of the canvas backend of the ART vector graphics
library (`Source/ART.Canvas.js`) and proves properties of that model. It has
four parts:

- **The path compiler.** `extrapolate` takes SVG-style path segments: `m l c s q t a h v z`,
  where a lower-case letter means relative coordinates. It emits at most one canvas drawing
  command per segment (`moveTo`, `lineTo`, `curveTo`, `arc` or `close`): a `z` on a closed
  subpath and an unknown letter emit nothing. It also records every
  emitted coordinate, and from those it builds a box `{left, top, right, bottom, width, height}`.
  - Module `PathCompiler` (`path_compiler.dfy`) specifies the compiler. The pure functions are
    `Step` (one loop iteration, built from one function per command letter) and `Run`
    (the whole loop). On top of them, `Compile` gives the commands and the box.
  - The method `Extrapolate` is the loop itself, with the source's loop variables. It is
    proved to return `Compile`.
  - Module `PathProperties` (`path_properties.dfy`) proves the compiler's properties.
    These are relative against absolute coordinates, the shorthand curves, the quadratic
    to cubic conversion, degenerate arcs, closing, commands per segment and the bounding box.
- **The memoising path.** In module `PathCache` (`path_cache.dfy`), class `Path` holds the
  segments, the cached command list and its box. `Push` drops the cache. `ToCommands`
  compiles only when there is no cached list. `Valid()` says that a cached list is always
  what compiling the current segments gives.
- **The repaint scheduler.** In module `Scene` (`scene.dfy`), class `Scheduler` holds the
  pending list `invalids` and the flag `timerArmed`.
  - `Canvas.Invalidate` marks a surface dirty and queues it once.
  - `Scheduler.Flush` is the timer callback. It takes the list, empties it, then marks each
    taken surface clean and renders it, in order.
  - `Scheduler.Valid()` is the invariant that every operation keeps:
    - a surface is pending exactly when it is dirty;
    - no surface is pending twice;
    - the timer is armed exactly while something is pending.
- **The scene tree and hit testing.** A `Node` is a group, a shape, a text or an image.
  It has a `container` back-reference to a surface or a group, and it is listed in that
  container's `children`.
  - `Inject`, `Eject`, `Hide`, `Show`, `Fill`, `Stroke` and `Draw` are methods of `Node`.
    Each of them invalidates upwards, through the groups to the surface at the top.
  - The render walk (`Canvas.Render`, `Node.RenderTo`, `RenderChildren`) returns the last
    hit among the children. The hit is recorded only when the pointer sample belongs to the
    surface being rendered.
  - Module `SceneProperties` (`scene_properties.dfy`) proves the properties of the tree
    and of hit selection.

Modelling choices:

- **Arc geometry.** `calculateArc` (sqrt and atan2 on floats) is a parameter
  `solve: ArcSolver`, so every arc result holds for any solver.
- **Point-in-path test.** The context's `isPointInPath` test is a parameter
  `inPath: Node -> bool`.
- **`Pointer`.** The module-level `hitContext`, `hitX`, `hitY` and `currentHitTarget` are the
  fields of class `Pointer`. The mouse listener becomes the method `Pointer.Move`.
- **Ghost parameters.** Several methods take ghost parameters that only the proofs need:
  - `up`: the chain of containers above a node. It bounds the upward recursion of
    `invalidate`. The source would recurse forever on a cyclic scene.
  - `U` and `C`: the scene's nodes and surfaces.
  - `d`: a depth bound for the downward render walk.
- **The tree shape.** Two predicates together say the scene is a tree.
  - `Consistent(U, C)` (the predicate `Tree` on the snapshots) states the links:
    - a node is in a list exactly when its `container` names that list's holder;
    - no list repeats a node;
    - only groups have children.

    It does not rule out cycles: two groups that hold each other meet it.
  - `Acyclic(U, cont)` states that every upward walk through groups ends (`Rooted`).
    `MutualGroupsCyclic` shows that two groups holding each other fail it.

  The methods do not carry these predicates. Instead they state their exact effect on three
  snapshot maps (`Containers`, `GroupLists`, `CanvasLists`). The effect is a move of one node
  from one container to another (`MovedGroups`, `MovedCanvases`).
  - `MoveKeepsTree` proves that any such move keeps the links.
  - `MoveKeepsAcyclic` proves that a move keeps acyclicity when the target group's ancestry
    avoids the moved node.
  - `InjectKeepsAcyclic` derives that ancestry condition from `Inject`'s own precondition
    `this !in upNew`. `EjectKeepsAcyclic` covers ejection, which always keeps acyclicity.

Points where the model follows the code rather than a cleaner reading:

- **Degenerate arc (line 514).** It calls `lineTo` with the single joined string `x + ',' + y`
  and no `y`. The model keeps that call as its own command `LineToJoined(x, y)`.
- **Arc radii (line 518).** `calculateArc` receives `v[0]` for both radii, and the arc uses
  `v[0]` as its radius. `ArcIgnoresSecondRadius` shows that the second radius matters only
  for the degeneracy test.
- **Repeated nodes.** `Array.erase` removes every occurrence of the node, so `Erase` does too.
- **Re-injection.** Injecting a node into the container it is already in erases it from that
  list and appends it again, so the node moves to the end (`ReinjectMovesToEnd`).
- **`Eject` order.** `eject` erases the node from the old list, then invalidates, then clears
  `container`. The model invalidates first.
  - The invalidation reads only `container` fields and `valid` flags.
  - The erase writes only a `children` list.
  - So the two steps commute, and the stated final state is the source's.
- **Invisible groups.** A group's `renderTo` ignores the group's own `_invisible` flag;
  so does the model.
- **Missing commands.** `!this._commands` holds only when no command list was ever set.
  An empty list is still truthy in JavaScript. The model uses `Option`.
- **`m` does not start a subpath (lines 472-474, 478-480).** Only a drawing letter sets the
  subpath start, and only while it is unset, so an `m` inside an open subpath leaves it alone
  (`MoveKeepsStart`). In `M 0 0 L 1 1 M 5 5 L 6 6 Z` the `z` moves the current point back
  to (0, 0). Section 8.3.3 of SVG 1.1 and the canvas's own `closePath` return to (5, 5), so
  relative segments after such a `z` are placed differently from the drawn figure.
- **Reflection after any curve (lines 553-555).** `(px, py)` is kept after all four curve
  letters. So an `s` after a `q` or `t` reflects the quadratic's control point, and a `t`
  after a `c` or `s` reflects the cubic's second control (`SmoothCubicAfterQuadReflectsQ`).
  Sections 8.3.6 and 8.3.7 of SVG 1.1 use the current point in those cases. For example,
  `Q 1 1 2 0 S 3 1 4 0` gives the `s` the first control (3, −1).

## Model

| member | source | states |
|---|---|---|
| PathCompiler.Reflect | Source/ART.Canvas.js:460-462 | the result is the mirror image of the first point about the second: their sum is twice the centre, on both axes |
| PathCompiler.BoxOf | Source/ART.Canvas.js:558-567 | with no recorded coordinate the box is all zeros; otherwise left/right and top/bottom are recorded values that bound every recorded x and y, and width = right − left ≥ 0, height = bottom − top ≥ 0 |
| PathCompiler.Step | Source/ART.Canvas.js:468-556 | one iteration emits at most one command and records as many x as y coordinates |
| PathCompiler.Run | Source/ART.Canvas.js:468-556 | the compiled list has at most one command per segment, and as many recorded x as y coordinates |
| PathCompiler.Advance | Source/ART.Canvas.js:469-555 | the loop body on the loop variables — reference point, subpath start, switch, reset of (px, py) — computes exactly one `Step` |
| PathCompiler.Dispatch | Source/ART.Canvas.js:476-552 | the `switch` on the command letter computes the per-command transition `Apply` for every letter, unknown letters included |
| PathCompiler.Quadratic | Source/ART.Canvas.js:499-508 | the shared body of `q` and `t` computes `QuadTo`: one cubic with controls (P0+2Q)/3 and (P2+2Q)/3, Q kept as (px, py) |
| PathCompiler.EllipticArcTo | Source/ART.Canvas.js:510-532 | the `a` branch, degenerate and proper, computes `ArcTo` |
| PathCompiler.Extrapolate | Source/ART.Canvas.js:448-569 | the loop returns exactly the commands and box of `Compile` |
| PathCache.Path.Push | Source/ART.Canvas.js:575-578 | the segments are appended, the cache is dropped and the cache invariant holds |
| PathCache.Path.ToCommands | Source/ART.Canvas.js:580-588 | the result is the compilation of the current segments and is now cached; a cached list is returned as it is, with its box unchanged, so repeated calls agree |
| PathProperties.Absolute | Source/ART.Canvas.js:470 | the rewritten segment is upper case |
| PathProperties.RelativeIsShiftedAbsolute | Source/ART.Canvas.js:470-540 | a lower-case segment does exactly what its upper-case form with the current point added to its coordinates does |
| PathProperties.ToAbsolute | Source/ART.Canvas.js:470 | rewriting a list keeps its length and makes every segment upper case |
| PathProperties.ToAbsoluteCompilesAlike | Source/ART.Canvas.js:468-556 | the upper-case rewriting of any list compiles to the same commands and box |
| PathProperties.HorizontalKeepsY | Source/ART.Canvas.js:534-536 | `h` keeps Y, sets X to the argument (plus X when relative) and emits a line to the new point |
| PathProperties.VerticalKeepsX | Source/ART.Canvas.js:538-540 | `v` keeps X, sets Y to the argument (plus Y when relative) and emits a line to the new point |
| PathProperties.ReflectInvolutive | Source/ART.Canvas.js:460-462 | reflecting twice about the same point gives the original point |
| PathProperties.SmoothCubicReflects | Source/ART.Canvas.js:492-497 | `s` emits a cubic whose first control is 2·(X,Y) − (px,py) and keeps its second control as (px,py) |
| PathProperties.SmoothCubicAfterQuadReflectsQ | Source/ART.Canvas.js:489-508 | an absolute `s` right after an absolute `q` emits a cubic whose first control is the quadratic's control point mirrored about the end of the `q`, ending at its own endpoint |
| PathProperties.SmoothQuadReflects | Source/ART.Canvas.js:504-508 | `t` takes Q = 2·(X,Y) − (px,py), keeps it as (px,py), ends at its argument (plus X,Y when relative) and emits the cubic of the quadratic through Q to that point |
| PathProperties.QuadEmitsCubic | Source/ART.Canvas.js:499-502 | `q` emits the cubic with controls (P0+2Q)/3 and (P2+2Q)/3 ending at P2, and keeps Q as (px,py) |
| PathProperties.QuadCurveIsExact | Source/ART.Canvas.js:499-508 | the emitted cubic traces the same curve as the quadratic at every parameter t |
| PathProperties.DegreeElevation | Source/ART.Canvas.js:499-508 | the cubic with controls (P0+2Q)/3, (P2+2Q)/3 equals the quadratic on one coordinate |
| PathProperties.NonCurveResetsControl | Source/ART.Canvas.js:553-555 | after any command but `c s q t`, (px,py) is the current point |
| PathProperties.SmoothAfterNonCurve | Source/ART.Canvas.js:492-555 | an `s` right after such a command has the current point as its first control |
| PathProperties.DegenerateArcDrawsNoArc | Source/ART.Canvas.js:511-516 | a zero radius argument or an endpoint equal to the current point emits no arc, only the joined `lineTo`, and moves to and records the endpoint |
| PathProperties.ArcRecordsBothEnds | Source/ART.Canvas.js:518-526 | a proper arc emits one arc of radius v[0] around the solver's centre, anticlockwise exactly when the sweep flag is 0, and records the solver's bounds, its start point and its endpoint |
| PathProperties.ArcIgnoresSecondRadius | Source/ART.Canvas.js:513-518 | once it is nonzero, the second radius has no effect |
| PathProperties.CloseReturnsToStart | Source/ART.Canvas.js:542-555 | `z` on an open subpath, whatever (px, py) was, emits `close`, returns to its start, clears it and records nothing; on a closed one it changes nothing but the reset of (px, py) to the current point |
| PathProperties.CloseTwiceIsCloseOnce | Source/ART.Canvas.js:542-555 | a second `z` in a row changes nothing |
| PathProperties.StartIsPointBeforeFirstDraw | Source/ART.Canvas.js:472-474 | an unset subpath start becomes the current point just before the first command other than `m` and `z` |
| PathProperties.MoveKeepsStart | Source/ART.Canvas.js:472-480 | an `m` leaves the subpath start unchanged and moves the current point to its target, shifted when relative |
| PathProperties.ApplyStart | Source/ART.Canvas.js:476-552 | only `z` clears the subpath start; no branch sets it |
| PathProperties.StepStart | Source/ART.Canvas.js:472-550 | after one iteration the start is set iff the command is not `z` and it either opens or the start was set |
| PathProperties.OpenSubpathSnoc | Source/ART.Canvas.js:472-550 | one more segment leaves a subpath open iff it is not `z` and it opens or one was open |
| PathProperties.StartSetIffOpen | Source/ART.Canvas.js:472-550 | the start is set exactly when some command other than `m` and `z` has run since the last `z` |
| PathProperties.CloseEmitsIffOpen | Source/ART.Canvas.js:542-550 | appending `z` adds `close` exactly when a subpath is open, and nothing otherwise |
| PathProperties.CommandsPerSegment | Source/ART.Canvas.js:476-552 | one command per drawing segment, one for a `z` that closes, none for any other segment |
| PathProperties.AbsoluteLinesEndAtLastPoint | Source/ART.Canvas.js:478-484 | a list of upper-case `M`/`L` compiles to one command per segment, the last at the last segment's point |
| PathProperties.EmitKeepsPointsRecorded | Source/ART.Canvas.js:452-456 | emitting a command whose points are among the new coordinates keeps every drawn point recorded |
| PathProperties.ApplyKeepsPointsRecorded | Source/ART.Canvas.js:476-552 | every branch of the switch records every point it draws through |
| PathProperties.CurveKeepsPointsRecorded | Source/ART.Canvas.js:486-508 | the four curve branches record every point they draw through, for any solver |
| PathProperties.OtherKeepsPointsRecorded | Source/ART.Canvas.js:478-550 | the other branches record every point they draw through |
| PathProperties.MovedToKeeps | Source/ART.Canvas.js:478-480 | `m` records the point it moves to |
| PathProperties.LinedToKeeps | Source/ART.Canvas.js:482-540 | `l`, `h` and `v` record the point they draw to |
| PathProperties.ArcToKeeps | Source/ART.Canvas.js:510-532 | `a` records the endpoint of its joined `lineTo` |
| PathProperties.ClosedKeeps | Source/ART.Canvas.js:542-550 | `z` keeps every drawn point recorded |
| PathProperties.CurvedToKeeps | Source/ART.Canvas.js:486-497 | `c` and `s` record both controls and the endpoint |
| PathProperties.QuadToKeeps | Source/ART.Canvas.js:499-508 | `q` and `t` record both emitted controls and the endpoint |
| PathProperties.EmitCurveKeeps | Source/ART.Canvas.js:486-508 | a `curveTo` that records its three points keeps every drawn point recorded |
| PathProperties.StepKeepsPointsRecorded | Source/ART.Canvas.js:468-556 | one iteration keeps every drawn point recorded |
| PathProperties.PathGrows | Source/ART.Canvas.js:468-556 | commands are only appended |
| PathProperties.BoundsGrow | Source/ART.Canvas.js:452-456 | coordinates are only appended |
| PathProperties.RunPointsRecorded | Source/ART.Canvas.js:468-556 | after any list every point of every compiled command is recorded |
| PathProperties.CommandPointsInBox | Source/ART.Canvas.js:558-567 | every point of every compiled command lies inside the compiled box |
| PathProperties.BoundsOfPrefix | Source/ART.Canvas.js:452-468 | the coordinates recorded after a prefix are a prefix of the final ones |
| PathProperties.ApplyRecordsReached | Source/ART.Canvas.js:478-540 | every drawing branch records the point it reaches last; a proper arc records its start point just before |
| PathProperties.StepRecordsReached | Source/ART.Canvas.js:468-556 | a drawing segment records the point it reaches last |
| PathProperties.StepRecordsArcStart | Source/ART.Canvas.js:525 | a proper arc records the point it starts from |
| PathProperties.RecordedInBox | Source/ART.Canvas.js:558-567 | a recorded pair of coordinates lies inside the box |
| PathProperties.ReachedPointInBox | Source/ART.Canvas.js:468-567 | the point reached by every drawing segment lies inside the compiled box |
| PathProperties.ArcStartInBox | Source/ART.Canvas.js:518-567 | the start point of every proper arc lies inside the compiled box |
| Scene.Canvas.constructor | Source/ART.Canvas.js:35-48 | a new surface is clean, has no children and joins the set of surfaces; the scheduler invariant holds |
| Scene.Canvas.Invalidate | Source/ART.Canvas.js:63-76 | the surface is dirty afterwards; a clean one is appended to the pending list, a dirty one is not; the timer is armed afterwards, and this call arms it exactly when the surface was clean and the timer unarmed; the scheduler invariant is kept |
| Scene.Canvas.Render | Source/ART.Canvas.js:78-88 | the last hit among the children is recorded as the current hit target exactly when the pointer sample belongs to this surface |
| Scene.Canvas.Repaint | Source/ART.Canvas.js:24-26 | one iteration of the repaint loop leaves the surface clean and records its last hit exactly when the pointer sample belongs to it |
| Scene.Pointer.constructor | Source/ART.Canvas.js:16 | no surface, coordinates 0 and no hit target at first |
| Scene.Pointer.Move | Source/ART.Canvas.js:42-47 | a pointer move records the surface and the coordinates and leaves the hit target alone |
| Scene.Node.constructor | Source/ART.Canvas.js:98-99 | a new node of the given kind has no container, no children, is visible, unpainted and undrawn |
| Scene.Node.Group | Source/ART.Canvas.js:158-162 | a new group has the given size, no container and no children |
| Scene.Node.Shape | Source/ART.Canvas.js:225-230 | a new shape has the given size, no container and no children; it is drawn with the compiled commands of the path when one is given, and undrawn otherwise |
| Scene.Node.Invalidate | Source/ART.Canvas.js:116-119 | the surface at the top of the node's chain of containers, if any, is invalidated, and nothing else: the pending list gains that surface once, and no children list changes |
| Scene.Node.Eject | Source/ART.Canvas.js:108-114 | the node leaves its old container's list (every occurrence), the surface above the old container is invalidated, and `container` becomes null; every other container and list is unchanged |
| Scene.Node.Inject | Source/ART.Canvas.js:101-106 | the node is ejected first, then appended to the new container's list with `container` set, and the surfaces above the old and the new container are invalidated, in that order; every other node and list is unchanged |
| Scene.Node.Admit | Source/ART.Canvas.js:103-105 | the detached node is appended to the target list, `container` is set and the surface above the target is invalidated |
| Scene.Node.Announce | Source/ART.Canvas.js:105 | the invalidation through the new container reaches the surface above it and changes no list |
| Scene.Node.Attach | Source/ART.Canvas.js:103-104 | `container` is set and the node is appended to the target list |
| Scene.Node.Detach | Source/ART.Canvas.js:110-112 | the node is erased from its container's list and `container` is cleared |
| Scene.Node.Unlist | Source/ART.Canvas.js:110 | `children.erase(this)` on the container's list, when there is one |
| Scene.Node.Enlist | Source/ART.Canvas.js:104 | `children.push(this)` on the target list |
| Scene.Node.SetContainer | Source/ART.Canvas.js:103 | only the node's `container` changes |
| Scene.Node.Hide | Source/ART.Canvas.js:133-136 | the node is invisible, its place in the tree is unchanged, and the surface above it is invalidated; the set of surfaces is unchanged |
| Scene.Node.Show | Source/ART.Canvas.js:138-141 | the node is visible, its place in the tree is unchanged, and the surface above it is invalidated; the set of surfaces is unchanged |
| Scene.Node.Fill | Source/ART.Canvas.js:191-195 | the fill is the color, or absent for a missing or empty one; nothing else of the node changes; the surface above is invalidated; the set of surfaces is unchanged |
| Scene.Node.Stroke | Source/ART.Canvas.js:209-215 | the stroke color as for a fill; width 1 and cap and join "round" unless given; the surface above is invalidated; the set of surfaces is unchanged |
| Scene.Node.Draw | Source/ART.Canvas.js:232-238 | the shape holds the compiled commands of the path, the path's cache stays valid, a given size is taken and a missing one left alone; the surface above is invalidated; the set of surfaces is unchanged |
| Scene.Node.TakeCommands | Source/ART.Canvas.js:234-236 | the shape holds the compiled commands of the path, the path's cache stays valid, and a given size is taken and a missing one left alone |
| Scene.Node.RenderTo | Source/ART.Canvas.js:240-263 | a group returns the last hit among its children; a shape returns itself exactly when it is painted, the sample is on this surface and inside its path; text and images return nothing |
| Scene.Scheduler.constructor | Source/ART.Canvas.js:18 | nothing pending, no timer, and the invariant holds |
| Scene.Scheduler.Flush | Source/ART.Canvas.js:18-28 | the timer is disarmed, the pending list is taken and emptied, every taken surface is clean and rendered in order, the pointer's surface and sample coordinates are unchanged, so the hit target is the last hit on the pointer's surface if that surface was pending, and unchanged otherwise; the invariant is kept |
| Scene.RenderChildren | Source/ART.Canvas.js:166-176 | the loop returns the hit of the last child, in order, that hits |
| Scene.FiniteChild | Source/ART.Canvas.js:168-171 | the children of a node of bounded depth have smaller depth |
| Scene.ChainEnds | Source/ART.Canvas.js:116-119 | the chain above a node outside any group is that node alone |
| Scene.ChainInto | Source/ART.Canvas.js:103-105 | a node just put into a target heads a chain whose top surface is the one above the target |
| Scene.ChainAppend | Source/ART.Canvas.js:116-119 | a node put into the group at the bottom of a chain extends it with the same top surface |
| Scene.ChainAlone | Source/ART.Canvas.js:116-117 | a node directly in a surface forms a chain of its own whose top is that surface |
| Scene.Enqueued | Source/ART.Canvas.js:64-66 | queueing a surface extends the list by at most that surface and keeps it free of repeats |
| Scene.Paint | Source/ART.Canvas.js:193 | paint is present exactly when a nonempty color is given, and then it is that color |
| Scene.SetChildren | Source/ART.Canvas.js:104 | only the children list of the holder changes |
| Scene.Erase | Source/ART.Canvas.js:110 | the result holds exactly the elements other than the node, is no longer, and keeps a list free of repeats |
| Scene.MovedTwice | Source/ART.Canvas.js:101-104 | ejecting and then appending is one move from the old container to the new one |
| Scene.MoveKeepsTree | Source/ART.Canvas.js:101-114 | moving a node from its container to another one, or to none, keeps the links: lists match `container` fields, have no repeats, and only groups have children (acyclicity is `MoveKeepsAcyclic`) |
| Scene.ChainIsAncestry | Source/ART.Canvas.js:116-117 | the heap chain of a group inside the scene is its ancestry in the snapshot of containers |
| Scene.AncestryRooted | Source/ART.Canvas.js:116-117 | an ancestry of m + 1 nodes is an upward walk that ends within m steps |
| Scene.RootedMono | Source/ART.Canvas.js:116-117 | a walk that ends within k steps ends within any larger number of steps |
| Scene.RootedAfterMove | Source/ART.Canvas.js:101-105 | after a move whose target ancestry avoids the node, every walk that ended before still ends, at most that ancestry's length later |
| Scene.MoveKeepsAcyclic | Source/ART.Canvas.js:101-105 | moving a node into a surface, out of every container, or into a group whose ancestry does not pass through the node keeps every upward walk finite |
| Scene.MutualGroupsCyclic | Source/ART.Canvas.js:116-117 | two groups that hold each other, or one group holding itself, are not acyclic |
| Scene.CycleNeverRooted | Source/ART.Canvas.js:116-117 | on such a cycle no upward walk ends, however many steps it takes |
| Scene.MoveKeepsMembership | Source/ART.Canvas.js:101-114 | after a move every contained node is in its container's list |
| Scene.MoveKeepsGroupLists | Source/ART.Canvas.js:101-114 | after a move group lists have no repeats, non-groups have no children, and every listed node is contained in its group |
| Scene.MoveKeepsGroupParents | Source/ART.Canvas.js:101-114 | after a move every node in a group's list is contained in that group |
| Scene.MoveKeepsCanvasLists | Source/ART.Canvas.js:101-114 | after a move surface lists have no repeats and every listed node is contained in its surface |
| Scene.MoveKeepsCanvasParents | Source/ART.Canvas.js:101-114 | after a move every node in a surface's list is contained in that surface |
| Scene.Listed | Source/ART.Canvas.js:103-104 | when the links are consistent a node is in no list but the one its container names |
| Scene.ListOfMoved | Source/ART.Canvas.js:104-110 | looking up a list after a move is moving the looked-up list |
| Scene.MovedMembers | Source/ART.Canvas.js:104-110 | after a move a list holds the others as before, and the moved node exactly when it is the new list, or it was there and it is not the old list |
| Scene.MovedNoDup | Source/ART.Canvas.js:104-110 | a move keeps a list free of repeats when the node is not appended where it already is |
| Scene.AppendFreshNoDup | Source/ART.Canvas.js:104 | appending an absent node keeps a list free of repeats |
| SceneProperties.NoDupPairwise | Source/ART.Canvas.js:64-66 | "no repeats" means that every two positions of the pending list hold different surfaces |
| SceneProperties.EnqueuedTwice | Source/ART.Canvas.js:63-76 | queueing the same surface twice is queueing it once |
| SceneProperties.HitIsPaintedShape | Source/ART.Canvas.js:241-262 | any hit is a visible, drawn, painted shape of the scene, found on the watched surface inside its path |
| SceneProperties.ChildHitsArePaintedShapes | Source/ART.Canvas.js:166-176 | the same for the hit of a list of children |
| SceneProperties.ChildHitsIsLastHit | Source/ART.Canvas.js:81-86 | the hit of a list is h exactly when some child hits h and no later child hits |
| SceneProperties.ChildHitsNoneIffNoHit | Source/ART.Canvas.js:81-86 | a list hits nothing exactly when no child hits |
| SceneProperties.UnwatchedHitsNothing | Source/ART.Canvas.js:262 | rendering a surface the pointer sample does not belong to hits nothing |
| SceneProperties.SingleParent | Source/ART.Canvas.js:101-114 | when the links are consistent a node is listed by one container at most, the one its `container` names |
| SceneProperties.InjectKeepsAcyclic | Source/ART.Canvas.js:101-105 | under `Inject`'s precondition on the target chain, the containers `Inject` leaves behind are acyclic when they were before |
| SceneProperties.EjectKeepsAcyclic | Source/ART.Canvas.js:108-114 | clearing a node's container keeps the scene acyclic |
| SceneProperties.MovedIntoTargetOnly | Source/ART.Canvas.js:101-104 | after a move the node is listed by the new container and by no other |
| SceneProperties.ListOfHolder | Source/ART.Canvas.js:104 | the snapshot map gives each container's own children |
| SceneProperties.ConsistentSingleParent | Source/ART.Canvas.js:101-114 | in a consistent scene a node in two containers' children is in one container, the one its `container` names |
| SceneProperties.EraseAbsent | Source/ART.Canvas.js:110 | erasing an absent node changes nothing |
| SceneProperties.ReinjectMovesToEnd | Source/ART.Canvas.js:101-110 | re-injecting into the same container keeps the list's length and elements and moves the node to the end |
| SceneProperties.EraseThenAppend | Source/ART.Canvas.js:104-110 | erasing a node that occurs once and appending it again is a permutation that ends with it |
| SceneProperties.EraseSingle | Source/ART.Canvas.js:110 | erasing a node that occurs once removes exactly its position |

## Left out

- `calculateArc` (lines 406-446): floating-point trigonometry. It is the uninterpreted parameter `solve`, and nothing is proved about its geometry.
- Floating point: coordinates are `real`s. NaN from a missing argument, rounding in `/ 3`, and `Math.max` on NaN are not modelled.
- Malformed segments: in the source a segment is an array that may hold too few arguments (so `undefined + x` gives NaN) or a non-numeric radius. The model's segments are typed and always carry their arguments.
- Parsing path strings, the `ART.Path` constructor and its own `push` (Source/ART.Path.js is not part of this model). `draw` wraps a non-`ART.Path` argument with `instanceof`; `Draw` takes a `Path` directly.
- The command constructors (lines 374-400) are functions that call the 2D context. They are the `Command` datatype, and executing them is not modelled.
- Canvas 2D context calls: `clearRect`, `save`/`restore`, `transform`, `beginPath`, `fill`, `stroke`, styles, and `isPointInPath` (a parameter `inPath`).
- DOM and timers:
  - the `canvas` element, `resize` (lines 50-57) and `toElement` are not modelled;
  - the `mousemove` listener (lines 42-47) is only `Pointer.Move`, with client coordinates taken as given;
  - `mozRequestAnimationFrame`/`setTimeout`/`clearTimeout` are the flag `timerArmed`, and the callback is the explicit `Scheduler.Flush`.
- `Canvas.Invalidate`: its `left, top, width, height` arguments are unused in the source and left out.
- Renders in the model do not invalidate. So the source's case of an invalidation raised during `renderInvalids`, which lands in the fresh list, does not arise, and `Scheduler.Flush` states the list empty afterwards.
- Color parsing (`new Color(color).toString()`, lines 193 and 210): the model keeps the given string as the paint. `Paint` models only the truthiness test (missing or empty means none).
- `fill` with several arguments (line 192) goes to the `fillLinear` stub. It is not modelled, and neither are the stubs `fillRadial`, `fillLinear`, `fillImage`, `blend`, `indicate`, `_transform` (each only invalidates).
- Transforms (`xx … ty`, `ART.Transform`) are forwarded to the context only and are not modelled.
- `Text` and `Image` nodes: font parsing, `measureText` and text drawing are not modelled. Text and image nodes exist as kinds that never hit.
- `Group` and `Shape` `initialize` (lines 158-162, 225-230): the transform initialisation is not modelled. A path given to `Scene.Node.Shape` is a `Path` object; the source's wrapping of raw segment arrays into an `ART.Path` is not modelled.
- Scene.Node.constructor, Scene.Node.Group, Scene.Node.Shape: they fix the initial stroke width, cap and join to 1 and "round", which the source leaves undefined until `stroke` is called. `Scene.Node.constructor` stands for the text and image constructors (lines 273, 296), whose arguments are not modelled.
- Misuses that throw in the source are excluded by preconditions rather than modelled as errors:
  - injecting into a node that is not a group (`Inject`, `Admit`, `Attach`): only groups and surfaces have a `children` list, so line 104 would throw;
  - `Fill` and `Stroke` on a group: they exist only on shapes, text and images (lines 191, 209);
  - `Draw` on anything but a shape (line 232; the text node's own `draw` is not modelled).
- Source/ART.Canvas.Base.js (feature detection and class aliasing) is not part of this model.
- Cyclic containers: the source's `invalidate` would recurse forever on a container cycle. The model requires the ghost chain `up`, which exists only on an acyclic scene. `Consistent` and `Tree` state only the links and say nothing about cycles; acyclicity is the separate `Acyclic`, and `MoveKeepsAcyclic` keeps it only for a move whose target ancestry avoids the node.
- `Scene.Node.Eject`: it states the final state, but it invalidates before erasing rather than after, which is the same final state because the two steps touch disjoint fields.
- `Scene.Node.Inject` and `Scene.Node.Eject`: they state their effect on the three snapshot maps over the given nodes `U` and surfaces `C`, and require the node to be in `U`. `Consistent` is carried from one state to the next by `MoveKeepsTree`, and `Acyclic` by `InjectKeepsAcyclic` and `EjectKeepsAcyclic`, not by their contracts.
- `Scene.Canvas.Render`, `Scene.Node.RenderTo`, `Scene.Scheduler.Flush`: the render walk may only descend a bounded depth `d` through nodes in `U` (the ghost `Finite`), which every finite acyclic scene meets for a large enough `d`.
