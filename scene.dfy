/** The scene: drawing surfaces (canvases), the nodes injected into them,
    the repaint scheduler shared by all surfaces, and the pointer sample
    used for hit testing during a render pass. */
module Scene {
  import opened Wrappers
  import opened PathCompiler
  import opened PathCache

  // ---------------------------------------------------------------------
  // Entities

  /** The concrete node classes; only a group has children. */
  datatype Kind = GroupNode | ShapeNode | TextNode | ImageNode

  /** What a node is injected into: a surface or a group node. */
  datatype Container = CanvasSlot(canvas: Canvas) | GroupSlot(group: Node)

  /** A drawing surface. */
  class Canvas {
    /** The nodes injected into this surface, in paint order. */
    var children: seq<Node>
    /** False from the first invalidation until the surface is repainted. */
    var valid: bool

    /** A new surface is empty and clean; it is registered with the
        scheduler's (ghost) set of surfaces. */
    constructor (s: Scheduler)
      requires s.Valid()
      modifies s
      ensures s.Valid()
      ensures children == [] && valid
      ensures s.surfaces == old(s.surfaces) + {this}
      ensures s.invalids == old(s.invalids) && s.timerArmed == old(s.timerArmed)
    {
      children := [];
      valid := true;
      new;
      s.surfaces := s.surfaces + {this};
    }

    /** Marks the surface dirty. A clean surface is appended to the pending
        list; `requested` tells whether this call armed the repaint timer,
        which it does only when the timer was not armed already. */
    method Invalidate(s: Scheduler) returns (requested: bool)
      requires s.Valid() && this in s.surfaces
      modifies this`valid, s
      ensures s.Valid() && s.surfaces == old(s.surfaces)
      ensures children == old(children)
      ensures !valid && s.timerArmed
      ensures s.invalids == if old(valid) then old(s.invalids) + [this] else old(s.invalids)
      ensures requested <==> old(valid) && !old(s.timerArmed)
    {
      requested := false;
      if valid {
        valid := false;
        s.invalids := s.invalids + [this];
        if !s.timerArmed {
          s.timerArmed := true;
          requested := true;
        }
      }
    }

    /** The repaint of the surface: every child is rendered in order, and
        the hit found is recorded only if the pointer sample belongs to this
        surface. */
    method Render(p: Pointer, inPath: Node -> bool, ghost U: set<Node>, ghost d: nat)
      requires forall i :: 0 <= i < |children| ==> Finite(U, children[i], d)
      modifies p
      ensures p.hitCanvas == old(p.hitCanvas) && p.hitX == old(p.hitX) && p.hitY == old(p.hitY)
      ensures p.currentHitTarget
           == if p.hitCanvas == this then ChildHits(children, true, inPath, U, d) else old(p.currentHitTarget)
    {
      var watched := p.hitCanvas == this;
      var hit := RenderChildren(children, watched, inPath, U, d);
      if watched {
        p.currentHitTarget := hit;
      }
    }

    /** One iteration of the repaint loop: the surface is marked clean,
        then rendered. */
    method Repaint(p: Pointer, inPath: Node -> bool, ghost U: set<Node>, ghost d: nat)
      requires forall i :: 0 <= i < |children| ==> Finite(U, children[i], d)
      modifies this`valid, p
      ensures valid
      ensures p.hitCanvas == old(p.hitCanvas) && p.hitX == old(p.hitX) && p.hitY == old(p.hitY)
      ensures p.currentHitTarget
           == if p.hitCanvas == this then ChildHits(children, true, inPath, U, d) else old(p.currentHitTarget)
    {
      valid := true;
      Render(p, inPath, U, d);
    }
  }

  /** The pointer sample shared by all surfaces. */
  class Pointer {
    /** The surface the pointer last moved over; null at first. */
    var hitCanvas: Canvas?
    var hitX: real
    var hitY: real
    /** The hit recorded by the last render of `hitCanvas`. */
    var currentHitTarget: Option<Node>

    constructor ()
      ensures hitCanvas == null && hitX == 0.0 && hitY == 0.0 && currentHitTarget == None
    {
      hitCanvas := null;
      hitX := 0.0;
      hitY := 0.0;
      currentHitTarget := None;
    }

    /** A pointer move over surface `c` at client coordinates `(x, y)`. */
    method Move(c: Canvas, x: real, y: real)
      modifies this
      ensures hitCanvas == c && hitX == x && hitY == y
      ensures currentHitTarget == old(currentHitTarget)
    {
      hitCanvas := c;
      hitX := x;
      hitY := y;
    }
  }

  /** A scene node: a group, a shape, a text or an image. */
  class Node {
    const kind: Kind
    /** The container the node is injected into; `None` stands for null. */
    var container: Option<Container>
    /** A group's children, in paint order; empty for every other kind. */
    var children: seq<Node>
    var invisible: bool
    var fill: Option<string>
    var stroke: Option<string>
    var strokeWidth: real
    var strokeCap: string
    var strokeJoin: string
    /** A shape's compiled commands; `None` until it is first drawn. */
    var commands: Option<seq<Command>>
    var width: Option<real>
    var height: Option<real>

    constructor (kind: Kind)
      ensures this.kind == kind && container == None && children == []
      ensures !invisible && fill == None && stroke == None && commands == None
    {
      this.kind := kind;
      container := None;
      children := [];
      invisible := false;
      fill := None;
      stroke := None;
      strokeWidth := 1.0;
      strokeCap := "round";
      strokeJoin := "round";
      commands := None;
      width := None;
      height := None;
    }

    /** A group of the given size, with no children. */
    constructor Group(width: Option<real>, height: Option<real>)
      ensures kind == GroupNode && container == None && children == []
      ensures this.width == width && this.height == height
      ensures !invisible && fill == None && stroke == None && commands == None
    {
      kind := GroupNode;
      container := None;
      children := [];
      invisible := false;
      fill := None;
      stroke := None;
      strokeWidth := 1.0;
      strokeCap := "round";
      strokeJoin := "round";
      commands := None;
      this.width := width;
      this.height := height;
    }

    /** A shape of the given size; when a path is given it is drawn at once,
        which invalidates nothing since the shape is in no container yet. */
    constructor Shape(path: Option<Path>, width: Option<real>, height: Option<real>)
      requires path.Some? ==> path.value.Valid()
      modifies if path.Some? then {path.value} else {}
      ensures kind == ShapeNode && container == None && children == []
      ensures this.width == width && this.height == height
      ensures !invisible && fill == None && stroke == None
      ensures path.None? ==> commands == None
      ensures path.Some? ==> path.value.Valid() && path.value.path == old(path.value.path)
      ensures path.Some? ==>
        commands.Some? && Compiled(commands.value, path.value.box) == Compile(path.value.path, path.value.solve)
    {
      kind := ShapeNode;
      container := None;
      children := [];
      invisible := false;
      fill := None;
      stroke := None;
      strokeWidth := 1.0;
      strokeCap := "round";
      strokeJoin := "round";
      commands := None;
      if path.Some? {
        var cs := path.value.ToCommands();
        commands := Some(cs);
      }
      this.width := width;
      this.height := height;
    }

    /** Forwards the invalidation to the container: up through the groups
        to the surface at the top, if there is one. `up` is the chain of
        nodes from this one to the topmost. */
    method Invalidate(s: Scheduler, ghost up: seq<Node>)
      requires Chain(this, up) && s.Valid() && Registered(s, up)
      modifies s, s.surfaces`valid
      decreases |up|
      ensures s.Valid() && s.surfaces == old(s.surfaces)
      ensures s.invalids == Enqueued(old(s.invalids), old(Owner(up)))
      ensures forall c :: c in s.surfaces ==> c.children == old(c.children)
    {
      match container
      case None =>
        ChainEnds(this, up);
      case Some(CanvasSlot(c)) =>
        ChainEnds(this, up);
        var _ := c.Invalidate(s);
      case Some(GroupSlot(g)) =>
        g.Invalidate(s, up[1..]);
    }

    /** Removes the node from its container's children (every occurrence),
        invalidates through the old container, then clears `container`.
        Over the scene's nodes `U` and surfaces `C`, the new containers and
        lists are the old ones with the node moved out. */
    method Eject(s: Scheduler, ghost up: seq<Node>, ghost U: set<Node>, ghost C: set<Canvas>)
      requires Chain(this, up) && s.Valid() && Registered(s, up) && this in U
      modifies this`container, s, s.surfaces`valid, GroupsOf(container)`children, CanvasesOf(container)`children
      ensures container == None
      ensures s.Valid() && s.surfaces == old(s.surfaces)
      ensures s.invalids == Enqueued(old(s.invalids), old(Owner(up)))
      ensures old(container).Some? ==>
        ChildrenOf(old(container).value) == Erase(old(ChildrenOf(container.value)), this)
      ensures Containers(U) == old(Containers(U))[this := None]
      ensures GroupLists(U) == MovedGroups(old(GroupLists(U)), this, old(container), None)
      ensures CanvasLists(C) == MovedCanvases(old(CanvasLists(C)), this, old(container), None)
    {
      Invalidate(s, up);
      Detach(U, C);
    }

    /** Ejects the node, then sets `container` to `target`, appends the
        node to `target`'s children and invalidates through `target`.
        `upOld` is the chain above this node before, `upNew` the chain from
        a target group upwards, which must not pass through this node. */
    method Inject(target: Container, s: Scheduler, ghost upOld: seq<Node>, ghost upNew: seq<Node>,
                  ghost U: set<Node>, ghost C: set<Canvas>)
      requires Chain(this, upOld) && s.Valid() && Registered(s, upOld) && this in U
      requires target.GroupSlot? ==> target.group.kind == GroupNode
      requires target.GroupSlot? ==> Chain(target.group, upNew) && this !in upNew && Registered(s, upNew)
      requires target.CanvasSlot? ==> target.canvas in s.surfaces
      modifies this`container, s, s.surfaces`valid, GroupsOf(container)`children, CanvasesOf(container)`children,
               GroupsOf(Some(target))`children, CanvasesOf(Some(target))`children
      ensures container == Some(target)
      ensures s.Valid() && s.surfaces == old(s.surfaces)
      ensures s.invalids == Enqueued(Enqueued(old(s.invalids), old(Owner(upOld))), old(Above(target, upNew)))
      ensures ChildrenOf(target)
           == (if old(container) == Some(target) then Erase(old(ChildrenOf(target)), this) else old(ChildrenOf(target))) + [this]
      ensures Containers(U) == old(Containers(U))[this := Some(target)]
      ensures GroupLists(U) == MovedGroups(old(GroupLists(U)), this, old(container), Some(target))
      ensures CanvasLists(C) == MovedCanvases(old(CanvasLists(C)), this, old(container), Some(target))
    {
      ghost var from := container;
      ghost var cont0, groups0, canvases0 := Containers(U), GroupLists(U), CanvasLists(C);
      ghost var before := ChildrenOf(target);
      Eject(s, upOld, U, C);
      assert ChildrenOf(target) == if from == Some(target) then Erase(before, this) else before;
      Admit(target, s, upNew, U, C);
      MovedTwice(groups0, canvases0, this, from, target);
      UpdateTwice(cont0, this, None, Some(target));
    }

    /** The second half of an injection: the detached node is put into
        `target` and invalidates through it. */
    method Admit(target: Container, s: Scheduler, ghost upNew: seq<Node>, ghost U: set<Node>, ghost C: set<Canvas>)
      requires container == None && s.Valid() && this in U
      requires target.GroupSlot? ==> target.group.kind == GroupNode
      requires target.GroupSlot? ==> Chain(target.group, upNew) && this !in upNew && Registered(s, upNew)
      requires target.CanvasSlot? ==> target.canvas in s.surfaces
      modifies this`container, s, s.surfaces`valid, GroupsOf(Some(target))`children, CanvasesOf(Some(target))`children
      ensures container == Some(target)
      ensures s.Valid() && s.surfaces == old(s.surfaces)
      ensures s.invalids == Enqueued(old(s.invalids), old(Above(target, upNew)))
      ensures ChildrenOf(target) == old(ChildrenOf(target)) + [this]
      ensures Containers(U) == old(Containers(U))[this := Some(target)]
      ensures GroupLists(U) == MovedGroups(old(GroupLists(U)), this, None, Some(target))
      ensures CanvasLists(C) == MovedCanvases(old(CanvasLists(C)), this, None, Some(target))
    {
      ghost var above, pending := Above(target, upNew), s.invalids;
      Attach(target, U, C);
      assert Above(target, upNew) == above && s.invalids == pending && s.Valid();
      ghost var cont, groups, canvases := Containers(U), GroupLists(U), CanvasLists(C);
      Announce(target, s, upNew, U, C);
      assert Containers(U) == cont && GroupLists(U) == groups && CanvasLists(C) == canvases;
    }

    /** The invalidation that ends an injection: through `target`, which
        the node is already in; no list and no `container` changes. */
    method Announce(target: Container, s: Scheduler, ghost upNew: seq<Node>, ghost U: set<Node>, ghost C: set<Canvas>)
      requires container == Some(target) && s.Valid()
      requires target.GroupSlot? ==> Chain(target.group, upNew) && this !in upNew && Registered(s, upNew)
      requires target.CanvasSlot? ==> target.canvas in s.surfaces
      modifies s, s.surfaces`valid
      ensures s.Valid() && s.surfaces == old(s.surfaces)
      ensures s.invalids == Enqueued(old(s.invalids), old(Above(target, upNew)))
      ensures ChildrenOf(target) == old(ChildrenOf(target))
      ensures Containers(U) == old(Containers(U))
      ensures GroupLists(U) == old(GroupLists(U))
      ensures CanvasLists(C) == old(CanvasLists(C))
    {
      ChainInto(this, target, upNew);
      Invalidate(s, Entered(this, target, upNew));
    }

    /** Sets `container` to `target` and appends this node to `target`'s
        list; no invalidation. */
    method Attach(target: Container, ghost U: set<Node>, ghost C: set<Canvas>)
      requires this in U && (target.GroupSlot? ==> target.group.kind == GroupNode)
      modifies this`container, GroupsOf(Some(target))`children, CanvasesOf(Some(target))`children
      ensures container == Some(target)
      ensures ChildrenOf(target) == old(ChildrenOf(target)) + [this]
      ensures Containers(U) == old(Containers(U))[this := Some(target)]
      ensures GroupLists(U) == MovedGroups(old(GroupLists(U)), this, None, Some(target))
      ensures CanvasLists(C) == MovedCanvases(old(CanvasLists(C)), this, None, Some(target))
    {
      SetContainer(Some(target), U);
      Enlist(target, U, C);
    }

    /** Erases this node from its container's list and clears `container`;
        no invalidation. */
    method Detach(ghost U: set<Node>, ghost C: set<Canvas>)
      requires this in U
      modifies this`container, GroupsOf(container)`children, CanvasesOf(container)`children
      ensures container == None
      ensures old(container).Some? ==>
        ChildrenOf(old(container).value) == Erase(old(ChildrenOf(container.value)), this)
      ensures Containers(U) == old(Containers(U))[this := None]
      ensures GroupLists(U) == MovedGroups(old(GroupLists(U)), this, old(container), None)
      ensures CanvasLists(C) == MovedCanvases(old(CanvasLists(C)), this, old(container), None)
    {
      Unlist(U, C);
      SetContainer(None, U);
    }

    /** Erases this node from its container's list. */
    method Unlist(ghost U: set<Node>, ghost C: set<Canvas>)
      modifies GroupsOf(container)`children, CanvasesOf(container)`children
      ensures container.Some? ==> ChildrenOf(container.value) == Erase(old(ChildrenOf(container.value)), this)
      ensures GroupLists(U) == MovedGroups(old(GroupLists(U)), this, container, None)
      ensures CanvasLists(C) == MovedCanvases(old(CanvasLists(C)), this, container, None)
    {
      if container.Some? {
        var k := container.value;
        SetChildren(k, Erase(ChildrenOf(k), this));
      }
    }

    /** Appends this node to `target`'s list. */
    method Enlist(target: Container, ghost U: set<Node>, ghost C: set<Canvas>)
      modifies GroupsOf(Some(target))`children, CanvasesOf(Some(target))`children
      ensures ChildrenOf(target) == old(ChildrenOf(target)) + [this]
      ensures GroupLists(U) == MovedGroups(old(GroupLists(U)), this, None, Some(target))
      ensures CanvasLists(C) == MovedCanvases(old(CanvasLists(C)), this, None, Some(target))
    {
      SetChildren(target, ChildrenOf(target) + [this]);
    }

    /** Sets `container`, nothing else. */
    method SetContainer(k: Option<Container>, ghost U: set<Node>)
      requires this in U
      modifies this`container
      ensures container == k
      ensures Containers(U) == old(Containers(U))[this := k]
    {
      container := k;
    }

    /** Hides the node and invalidates. */
    method Hide(s: Scheduler, ghost up: seq<Node>)
      requires Chain(this, up) && s.Valid() && Registered(s, up)
      modifies this`invisible, s, s.surfaces`valid
      ensures invisible && container == old(container) && children == old(children)
      ensures s.Valid() && s.surfaces == old(s.surfaces) && s.invalids == Enqueued(old(s.invalids), old(Owner(up)))
    {
      ghost var owner, pending := Owner(up), s.invalids;
      invisible := true;
      assert Owner(up) == owner && s.invalids == pending;
      Invalidate(s, up);
    }

    /** Shows the node and invalidates. */
    method Show(s: Scheduler, ghost up: seq<Node>)
      requires Chain(this, up) && s.Valid() && Registered(s, up)
      modifies this`invisible, s, s.surfaces`valid
      ensures !invisible && container == old(container) && children == old(children)
      ensures s.Valid() && s.surfaces == old(s.surfaces) && s.invalids == Enqueued(old(s.invalids), old(Owner(up)))
    {
      ghost var owner, pending := Owner(up), s.invalids;
      invisible := false;
      assert Owner(up) == owner && s.invalids == pending;
      Invalidate(s, up);
    }

    /** Sets a solid fill (absent for a missing or empty color) and invalidates. */
    method Fill(color: Option<string>, s: Scheduler, ghost up: seq<Node>)
      requires kind != GroupNode
      requires Chain(this, up) && s.Valid() && Registered(s, up)
      modifies this`fill, s, s.surfaces`valid
      ensures fill == Paint(color) && stroke == old(stroke) && invisible == old(invisible)
      ensures commands == old(commands) && container == old(container) && children == old(children)
      ensures s.Valid() && s.surfaces == old(s.surfaces) && s.invalids == Enqueued(old(s.invalids), old(Owner(up)))
    {
      ghost var owner, pending := Owner(up), s.invalids;
      fill := Paint(color);
      assert Owner(up) == owner && s.invalids == pending;
      Invalidate(s, up);
    }

    /** Sets the stroke: the color as for a fill; width 1, cap and join
        "round" unless given. */
    method Stroke(color: Option<string>, width: Option<real>, cap: Option<string>, join: Option<string>,
                  s: Scheduler, ghost up: seq<Node>)
      requires kind != GroupNode
      requires Chain(this, up) && s.Valid() && Registered(s, up)
      modifies this`stroke, this`strokeWidth, this`strokeCap, this`strokeJoin, s, s.surfaces`valid
      ensures stroke == Paint(color) && fill == old(fill) && invisible == old(invisible)
      ensures strokeWidth == width.GetOr(1.0)
      ensures strokeCap == cap.GetOr("round") && strokeJoin == join.GetOr("round")
      ensures commands == old(commands) && container == old(container) && children == old(children)
      ensures s.Valid() && s.surfaces == old(s.surfaces) && s.invalids == Enqueued(old(s.invalids), old(Owner(up)))
    {
      ghost var owner, pending := Owner(up), s.invalids;
      stroke := Paint(color);
      strokeWidth := width.GetOr(1.0);
      strokeCap := cap.GetOr("round");
      strokeJoin := join.GetOr("round");
      assert Owner(up) == owner && s.invalids == pending;
      Invalidate(s, up);
    }

    /** A shape takes the compiled commands of `path`, and any size given,
        and invalidates. */
    method Draw(path: Path, width: Option<real>, height: Option<real>, s: Scheduler, ghost up: seq<Node>)
      requires kind == ShapeNode && path.Valid()
      requires Chain(this, up) && s.Valid() && Registered(s, up)
      modifies this`commands, this`width, this`height, path, s, s.surfaces`valid
      ensures path.Valid() && path.path == old(path.path)
      ensures commands.Some? && Compiled(commands.value, path.box) == Compile(path.path, path.solve)
      ensures width.Some? ==> this.width == width
      ensures width.None? ==> this.width == old(this.width)
      ensures height.Some? ==> this.height == height
      ensures height.None? ==> this.height == old(this.height)
      ensures container == old(container) && children == old(children)
      ensures s.Valid() && s.surfaces == old(s.surfaces) && s.invalids == Enqueued(old(s.invalids), old(Owner(up)))
    {
      ghost var owner, pending := Owner(up), s.invalids;
      TakeCommands(path, width, height);
      assert Owner(up) == owner && s.invalids == pending && s.Valid();
      Invalidate(s, up);
    }

    /** The part of `draw` before its invalidation. */
    method TakeCommands(path: Path, width: Option<real>, height: Option<real>)
      requires kind == ShapeNode && path.Valid()
      modifies this`commands, this`width, this`height, path
      ensures path.Valid() && path.path == old(path.path)
      ensures commands.Some? && Compiled(commands.value, path.box) == Compile(path.path, path.solve)
      ensures width.Some? ==> this.width == width
      ensures width.None? ==> this.width == old(this.width)
      ensures height.Some? ==> this.height == height
      ensures height.None? ==> this.height == old(this.height)
    {
      var cs := path.ToCommands();
      commands := Some(cs);
      if width.Some? {
        this.width := width;
      }
      if height.Some? {
        this.height := height;
      }
    }

    /** Renders the node: a group renders its children, in order, and
        returns the last hit among them; a shape returns itself when it is
        visible, drawn, painted, and the pointer sample of the rendering
        surface falls inside its path; text and images never hit. */
    method RenderTo(watched: bool, inPath: Node -> bool, ghost U: set<Node>, ghost d: nat)
      returns (hit: Option<Node>)
      requires Finite(U, this, d)
      decreases d, 1
      ensures hit == Hit(this, watched, inPath, U, d)
    {
      match kind
      case GroupNode =>
        if children == [] {
          hit := None;
        } else {
          FiniteChild(U, this, d, 0);
          hit := RenderChildren(children, watched, inPath, U, d - 1);
        }
      case ShapeNode =>
        if invisible || commands.None? || (fill.None? && stroke.None?) {
          return None;
        }
        hit := if watched && inPath(this) then Some(this) else None;
      case TextNode =>
        hit := None;
      case ImageNode =>
        hit := None;
    }
  }

  /** The process-wide repaint state: the pending surfaces, in the order of
      their first invalidation, and whether the repaint timer is armed. */
  class Scheduler {
    var invalids: seq<Canvas>
    var timerArmed: bool
    /** Every surface created so far. */
    ghost var surfaces: set<Canvas>

    /** A surface is pending exactly when it is dirty, no surface is
        pending twice, and the timer is armed exactly while some surface is
        pending. */
    ghost predicate Valid()
      reads this, surfaces`valid
    {
      && (forall i :: 0 <= i < |invalids| ==> invalids[i] in surfaces)
      && NoDup(invalids)
      && (forall c :: c in surfaces ==> (!c.valid <==> c in invalids))
      && (timerArmed <==> invalids != [])
    }

    constructor ()
      ensures Valid() && invalids == [] && !timerArmed && surfaces == {}
    {
      invalids := [];
      timerArmed := false;
      surfaces := {};
    }

    /** The timer callback: disarms the timer, takes the pending list and
        empties it, then marks each surface of the taken list clean and
        renders it, in list order. `rendered` is the taken list. */
    method Flush(p: Pointer, inPath: Node -> bool, ghost U: set<Node>, ghost d: nat)
      returns (rendered: seq<Canvas>)
      requires Valid()
      requires forall c :: c in invalids ==> forall i :: 0 <= i < |c.children| ==> Finite(U, c.children[i], d)
      modifies this, surfaces`valid, p
      ensures Valid() && surfaces == old(surfaces)
      ensures rendered == old(invalids)
      ensures invalids == [] && !timerArmed
      ensures forall c :: c in surfaces ==> c.valid && c.children == old(c.children)
      ensures p.hitCanvas == old(p.hitCanvas) && p.hitX == old(p.hitX) && p.hitY == old(p.hitY)
      ensures p.hitCanvas != null && p.hitCanvas in rendered ==>
        p.currentHitTarget == ChildHits(p.hitCanvas.children, true, inPath, U, d)
      ensures !(p.hitCanvas != null && p.hitCanvas in rendered) ==>
        p.currentHitTarget == old(p.currentHitTarget)
    {
      timerArmed := false;
      var canvases := invalids;
      invalids := [];
      var i := 0;
      while i < |canvases|
        invariant 0 <= i <= |canvases|
        invariant invalids == [] && !timerArmed && surfaces == old(surfaces)
        invariant forall j :: 0 <= j < |canvases| ==> canvases[j] in surfaces
        invariant forall c :: c in surfaces ==> c.children == old(c.children)
        invariant forall c :: c in surfaces ==> (c.valid <==> old(c.valid) || c in canvases[..i])
        invariant p.hitCanvas == old(p.hitCanvas) && p.hitX == old(p.hitX) && p.hitY == old(p.hitY)
        invariant p.hitCanvas != null && p.hitCanvas in canvases[..i] ==>
          p.currentHitTarget == ChildHits(p.hitCanvas.children, true, inPath, U, d)
        invariant !(p.hitCanvas != null && p.hitCanvas in canvases[..i]) ==>
          p.currentHitTarget == old(p.currentHitTarget)
      {
        var c := canvases[i];
        c.Repaint(p, inPath, U, d);
        assert canvases[..i + 1] == canvases[..i] + [c];
        i := i + 1;
      }
      assert canvases[..i] == canvases;
      rendered := canvases;
    }
  }

  // ---------------------------------------------------------------------
  // The render walk

  /** The loop of a surface's and a group's render: each child in order,
      a later hit replacing an earlier one. */
  method RenderChildren(cs: seq<Node>, watched: bool, inPath: Node -> bool, ghost U: set<Node>, ghost d: nat)
    returns (hit: Option<Node>)
    requires forall i :: 0 <= i < |cs| ==> Finite(U, cs[i], d)
    decreases d, 2
    ensures hit == ChildHits(cs, watched, inPath, U, d)
  {
    hit := None;
    var i := 0;
    while i < |cs|
      invariant 0 <= i <= |cs|
      invariant hit == ChildHits(cs[..i], watched, inPath, U, d)
    {
      var h := cs[i].RenderTo(watched, inPath, U, d);
      assert cs[..i + 1][..i] == cs[..i];
      if h.Some? {
        hit := h;
      }
      i := i + 1;
    }
    assert cs[..i] == cs;
  }

  /** `n` and everything below it lie in `U`, at most `d` levels deep. */
  ghost predicate Finite(U: set<Node>, n: Node, d: nat)
    reads U
    decreases d
  {
    n in U && forall i :: 0 <= i < |n.children| ==> d > 0 && Finite(U, n.children[i], d - 1)
  }

  lemma FiniteChild(U: set<Node>, n: Node, d: nat, i: nat)
    requires Finite(U, n, d) && i < |n.children|
    ensures d > 0 && Finite(U, n.children[i], d - 1)
  {
  }

  /** Is the shape drawn at all: visible, with commands, and with a fill
      or a stroke? */
  ghost predicate Painted(n: Node)
    reads n
  {
    !n.invisible && n.commands.Some? && (n.fill.Some? || n.stroke.Some?)
  }

  /** What rendering `n` returns; `watched` says whether the pointer sample
      belongs to the surface being rendered, `inPath` stands for the
      context's point-in-path test. */
  ghost function Hit(n: Node, watched: bool, inPath: Node -> bool, U: set<Node>, d: nat): Option<Node>
    requires Finite(U, n, d)
    reads U
    decreases d, 1, 0
  {
    match n.kind
    case GroupNode => if d == 0 then None else ChildHits(n.children, watched, inPath, U, d - 1)
    case ShapeNode => if Painted(n) && watched && inPath(n) then Some(n) else None
    case TextNode => None
    case ImageNode => None
  }

  /** The hit of the last child, in order, that hits. */
  ghost function ChildHits(cs: seq<Node>, watched: bool, inPath: Node -> bool, U: set<Node>, d: nat): Option<Node>
    requires forall i :: 0 <= i < |cs| ==> Finite(U, cs[i], d)
    reads U
    decreases d, 2, |cs|
  {
    if cs == [] then None
    else
      var h := Hit(cs[|cs| - 1], watched, inPath, U, d);
      if h.Some? then h else ChildHits(cs[..|cs| - 1], watched, inPath, U, d)
  }

  // ---------------------------------------------------------------------
  // Invalidation

  /** `up` starts at `n` and follows `container` through groups to a node
      that sits in a surface or in nothing. */
  ghost predicate Chain(n: Node, up: seq<Node>)
    reads up`container
  {
    && |up| > 0 && up[0] == n
    && (forall i {:trigger up[i].container} :: 0 <= i < |up| - 1 ==> up[i].container == Some(GroupSlot(up[i + 1])))
    && (up[|up| - 1].container.None? || up[|up| - 1].container.value.CanvasSlot?)
  }

  /** A chain from a node outside any group is that node alone. */
  lemma ChainEnds(n: Node, up: seq<Node>)
    requires Chain(n, up) && (n.container.None? || n.container.value.CanvasSlot?)
    ensures |up| == 1
  {
  }

  /** The chain of a node just put into `target`. */
  function Entered(n: Node, target: Container, upNew: seq<Node>): seq<Node> {
    if target.GroupSlot? then [n] + upNew else [n]
  }

  lemma ChainInto(n: Node, target: Container, upNew: seq<Node>)
    requires n.container == Some(target)
    requires target.GroupSlot? ==> Chain(target.group, upNew)
    ensures Chain(n, Entered(n, target, upNew)) && Owner(Entered(n, target, upNew)) == Above(target, upNew)
  {
    if target.GroupSlot? {
      ChainAppend(n, upNew);
    } else {
      ChainAlone(n);
    }
  }

  /** A node put into the group at the bottom of a chain extends it. */
  lemma ChainAppend(n: Node, up: seq<Node>)
    requires |up| > 0 && Chain(up[0], up) && n.container == Some(GroupSlot(up[0]))
    ensures Chain(n, [n] + up) && Owner([n] + up) == Owner(up)
  {
    var up' := [n] + up;
    forall i | 0 <= i < |up'| - 1
      ensures up'[i].container == Some(GroupSlot(up'[i + 1]))
    {
      if i > 0 {
        assert up'[i] == up[i - 1] && up'[i + 1] == up[i];
      }
    }
    assert up'[|up'| - 1] == up[|up| - 1];
  }

  /** A node outside any group is a chain of its own. */
  lemma ChainAlone(n: Node)
    requires n.container.Some? && n.container.value.CanvasSlot?
    ensures Chain(n, [n]) && Owner([n]) == Some(n.container.value.canvas)
  {
  }

  /** The surface at the top of the chain, if any. */
  ghost function Owner(up: seq<Node>): Option<Canvas>
    reads up`container
  {
    if up == [] then None
    else match up[|up| - 1].container
      case Some(CanvasSlot(c)) => Some(c)
      case _ => None
  }

  /** The surface an invalidation through `k` reaches. */
  ghost function Above(k: Container, up: seq<Node>): Option<Canvas>
    reads up`container
  {
    match k
    case CanvasSlot(c) => Some(c)
    case GroupSlot(_) => Owner(up)
  }

  ghost predicate Registered(s: Scheduler, up: seq<Node>)
    reads s`surfaces, up`container
  {
    Owner(up).Some? ==> Owner(up).value in s.surfaces
  }

  /** No element occurs twice: each is absent from the part before it. */
  predicate NoDup<T(==)>(q: seq<T>) {
    q == [] || (q[|q| - 1] !in q[..|q| - 1] && NoDup(q[..|q| - 1]))
  }

  /** The pending list after invalidating surface `o`: appended once, the
      first time only. */
  function Enqueued(q: seq<Canvas>, o: Option<Canvas>): (r: seq<Canvas>)
    ensures q <= r && |r| <= |q| + 1
    ensures o.Some? ==> o.value in r
    ensures forall i :: 0 <= i < |r| ==> r[i] in q || Some(r[i]) == o
    ensures NoDup(q) ==> NoDup(r)
  {
    if o.Some? && o.value !in q then q + [o.value] else q
  }

  // ---------------------------------------------------------------------
  // Paint

  /** A missing or empty color means no paint. */
  function Paint(color: Option<string>): (r: Option<string>)
    ensures r.Some? <==> color.Some? && color.value != ""
    ensures r.Some? ==> r.value == color.value
  {
    if color.Some? && color.value != "" then color else None
  }

  // ---------------------------------------------------------------------
  // Membership

  /** The object holding a container's children. */
  function Holder(k: Container): object {
    match k
    case CanvasSlot(c) => c
    case GroupSlot(g) => g
  }

  /** The group, if any, that a container names. */
  function GroupsOf(k: Option<Container>): set<Node> {
    if k.Some? && k.value.GroupSlot? then {k.value.group} else {}
  }

  /** The surface, if any, that a container names. */
  function CanvasesOf(k: Option<Container>): set<Canvas> {
    if k.Some? && k.value.CanvasSlot? then {k.value.canvas} else {}
  }

  function ChildrenOf(k: Container): seq<Node>
    reads Holder(k)
  {
    match k
    case CanvasSlot(c) => c.children
    case GroupSlot(g) => g.children
  }

  method SetChildren(k: Container, cs: seq<Node>)
    modifies GroupsOf(Some(k))`children, CanvasesOf(Some(k))`children
    ensures ChildrenOf(k) == cs
    ensures k.GroupSlot? ==> k.group.container == old(k.group.container)
    ensures k.CanvasSlot? ==> k.canvas.valid == old(k.canvas.valid)
  {
    match k
    case CanvasSlot(c) => c.children := cs;
    case GroupSlot(g) => g.children := cs;
  }

  /** Does `k` belong to the scene formed by nodes `U` and surfaces `C`? */
  ghost predicate Holds(U: set<Node>, C: set<Canvas>, k: Container) {
    match k
    case CanvasSlot(c) => c in C
    case GroupSlot(g) => g in U && g.kind.GroupNode?
  }

  /** The `container` field of every node of `U`. */
  ghost function Containers(U: set<Node>): map<Node, Option<Container>>
    reads U`container
  {
    map x | x in U :: x.container
  }

  /** The children of every node of `U`. */
  ghost function GroupLists(U: set<Node>): map<Node, seq<Node>>
    reads U`children
  {
    map g | g in U :: g.children
  }

  /** The children of every surface of `C`. */
  ghost function CanvasLists(C: set<Canvas>): map<Canvas, seq<Node>>
    reads C`children
  {
    map c | c in C :: c.children
  }

  /** The list a container holds, looked up in the two maps of lists. */
  function ListOf(k: Container, groups: map<Node, seq<Node>>, canvases: map<Canvas, seq<Node>>): seq<Node> {
    match k
    case CanvasSlot(c) => if c in canvases then canvases[c] else []
    case GroupSlot(g) => if g in groups then groups[g] else []
  }

  /** The links of the tree shape, on values: a node is in a list exactly
      when its container names that list's holder, lists have no repeats,
      and only groups have children. Cycles are not excluded here; that is
      `Acyclic`. */
  ghost predicate Tree(U: set<Node>, C: set<Canvas>, cont: map<Node, Option<Container>>,
                       groups: map<Node, seq<Node>>, canvases: map<Canvas, seq<Node>>)
  {
    && cont.Keys == U && groups.Keys == U && canvases.Keys == C
    && Members(U, C, cont, groups, canvases)
    && GroupShape(U, groups) && GroupParents(U, cont, groups)
    && CanvasShape(C, canvases) && CanvasParents(U, C, cont, canvases)
  }

  /** Every node with a container is held by a container of the scene and
      is in its list. */
  ghost predicate Members(U: set<Node>, C: set<Canvas>, cont: map<Node, Option<Container>>,
                          groups: map<Node, seq<Node>>, canvases: map<Canvas, seq<Node>>)
    requires cont.Keys == U
  {
    forall n {:trigger cont[n]} :: n in U && cont[n].Some? ==>
      Holds(U, C, cont[n].value) && n in ListOf(cont[n].value, groups, canvases)
  }

  /** Group lists have no repeats, and nodes other than groups have no children. */
  ghost predicate GroupShape(U: set<Node>, groups: map<Node, seq<Node>>)
    requires groups.Keys == U
  {
    forall g {:trigger groups[g]} :: g in U ==> (g.kind != GroupNode ==> groups[g] == []) && NoDup(groups[g])
  }

  /** Everything in a group's list is a node of the scene contained in that group. */
  ghost predicate GroupParents(U: set<Node>, cont: map<Node, Option<Container>>, groups: map<Node, seq<Node>>)
    requires cont.Keys == U && groups.Keys == U
  {
    forall g, i :: g in U && 0 <= i < |groups[g]| ==>
      groups[g][i] in U && cont[groups[g][i]] == Some(GroupSlot(g))
  }

  /** Surface lists have no repeats. */
  ghost predicate CanvasShape(C: set<Canvas>, canvases: map<Canvas, seq<Node>>)
    requires canvases.Keys == C
  {
    forall c {:trigger canvases[c]} :: c in C ==> NoDup(canvases[c])
  }

  /** Everything in a surface's list is a node of the scene contained in that surface. */
  ghost predicate CanvasParents(U: set<Node>, C: set<Canvas>, cont: map<Node, Option<Container>>,
                                canvases: map<Canvas, seq<Node>>)
    requires cont.Keys == U && canvases.Keys == C
  {
    forall c, i :: c in C && 0 <= i < |canvases[c]| ==>
      canvases[c][i] in U && cont[canvases[c][i]] == Some(CanvasSlot(c))
  }

  /** The links of the scene formed by nodes `U` and surfaces `C` are consistent. */
  ghost predicate Consistent(U: set<Node>, C: set<Canvas>)
    reads U`container, U`children, C`children
  {
    Tree(U, C, Containers(U), GroupLists(U), CanvasLists(C))
  }

  lemma UpdateTwice<K, V>(m: map<K, V>, k: K, a: V, b: V)
    ensures m[k := a][k := b] == m[k := b]
  {
  }

  /** A list without `n`: every occurrence removed, order kept. */
  function Erase(cs: seq<Node>, n: Node): (r: seq<Node>)
    ensures forall x :: x in r ==> x in cs && x != n
    ensures forall x :: x in cs && x != n ==> x in r
    ensures |r| <= |cs|
    ensures NoDup(cs) ==> NoDup(r)
  {
    if cs == [] then []
    else if cs[|cs| - 1] == n then Erase(cs[..|cs| - 1], n)
    else Erase(cs[..|cs| - 1], n) + [cs[|cs| - 1]]
  }

  /** The list of holder `h` after node `n` moves from container `from` to
      container `to`: erased from the old list, appended to the new one. */
  function Moved(cs: seq<Node>, h: Container, n: Node, from: Option<Container>, to: Option<Container>): seq<Node> {
    var kept := if Some(h) == from then Erase(cs, n) else cs;
    if Some(h) == to then kept + [n] else kept
  }

  function MovedGroups(groups: map<Node, seq<Node>>, n: Node, from: Option<Container>, to: Option<Container>)
    : map<Node, seq<Node>>
  {
    map g | g in groups :: Moved(groups[g], GroupSlot(g), n, from, to)
  }

  function MovedCanvases(canvases: map<Canvas, seq<Node>>, n: Node, from: Option<Container>, to: Option<Container>)
    : map<Canvas, seq<Node>>
  {
    map c | c in canvases :: Moved(canvases[c], CanvasSlot(c), n, from, to)
  }

  /** Ejecting and then appending is one move from the old container to the
      new one. */
  lemma MovedTwice(groups: map<Node, seq<Node>>, canvases: map<Canvas, seq<Node>>,
                   n: Node, from: Option<Container>, to: Container)
    ensures MovedGroups(MovedGroups(groups, n, from, None), n, None, Some(to))
         == MovedGroups(groups, n, from, Some(to))
    ensures MovedCanvases(MovedCanvases(canvases, n, from, None), n, None, Some(to))
         == MovedCanvases(canvases, n, from, Some(to))
  {
  }

  /** Moving node `n` from container `from` to container `to` (or to none)
      keeps the links of the tree shape. */
  lemma MoveKeepsTree(U: set<Node>, C: set<Canvas>, cont: map<Node, Option<Container>>,
                      groups: map<Node, seq<Node>>, canvases: map<Canvas, seq<Node>>,
                      n: Node, from: Option<Container>, to: Option<Container>)
    requires Tree(U, C, cont, groups, canvases) && n in U && cont[n] == from
    requires to.Some? ==> Holds(U, C, to.value)
    ensures Tree(U, C, cont[n := to], MovedGroups(groups, n, from, to), MovedCanvases(canvases, n, from, to))
  {
    MoveKeepsMembership(U, C, cont, groups, canvases, n, from, to);
    MoveKeepsGroupLists(U, C, cont, groups, canvases, n, from, to);
    MoveKeepsCanvasLists(U, C, cont, groups, canvases, n, from, to);
  }

  lemma MoveKeepsMembership(U: set<Node>, C: set<Canvas>, cont: map<Node, Option<Container>>,
                            groups: map<Node, seq<Node>>, canvases: map<Canvas, seq<Node>>,
                            n: Node, from: Option<Container>, to: Option<Container>)
    requires Tree(U, C, cont, groups, canvases) && n in U && cont[n] == from
    requires to.Some? ==> Holds(U, C, to.value)
    ensures Members(U, C, cont[n := to], MovedGroups(groups, n, from, to), MovedCanvases(canvases, n, from, to))
  {
    var cont', groups', canvases' := cont[n := to], MovedGroups(groups, n, from, to), MovedCanvases(canvases, n, from, to);
    forall x | x in U && cont'[x].Some?
      ensures Holds(U, C, cont'[x].value) && x in ListOf(cont'[x].value, groups', canvases')
    {
      var k := cont'[x].value;
      assert x != n ==> cont[x] == Some(k);
      ListOfMoved(k, groups, canvases, n, from, to);
      MovedMembers(ListOf(k, groups, canvases), k, n, from, to);
    }
  }

  lemma MoveKeepsGroupLists(U: set<Node>, C: set<Canvas>, cont: map<Node, Option<Container>>,
                            groups: map<Node, seq<Node>>, canvases: map<Canvas, seq<Node>>,
                            n: Node, from: Option<Container>, to: Option<Container>)
    requires Tree(U, C, cont, groups, canvases) && n in U && cont[n] == from
    requires to.Some? ==> Holds(U, C, to.value)
    ensures MovedGroups(groups, n, from, to).Keys == U
    ensures GroupShape(U, MovedGroups(groups, n, from, to))
    ensures GroupParents(U, cont[n := to], MovedGroups(groups, n, from, to))
  {
    var groups' := MovedGroups(groups, n, from, to);
    forall g | g in U
      ensures (g.kind != GroupNode ==> groups'[g] == []) && NoDup(groups'[g])
    {
      Listed(U, C, cont, groups, canvases, n, GroupSlot(g));
      MovedNoDup(groups[g], GroupSlot(g), n, from, to);
    }
    MoveKeepsGroupParents(U, C, cont, groups, canvases, n, from, to);
  }

  lemma MoveKeepsGroupParents(U: set<Node>, C: set<Canvas>, cont: map<Node, Option<Container>>,
                              groups: map<Node, seq<Node>>, canvases: map<Canvas, seq<Node>>,
                              n: Node, from: Option<Container>, to: Option<Container>)
    requires Tree(U, C, cont, groups, canvases) && n in U && cont[n] == from
    ensures MovedGroups(groups, n, from, to).Keys == U
    ensures GroupParents(U, cont[n := to], MovedGroups(groups, n, from, to))
  {
    var cont', groups' := cont[n := to], MovedGroups(groups, n, from, to);
    forall g, i | g in U && 0 <= i < |groups'[g]|
      ensures groups'[g][i] in U && cont'[groups'[g][i]] == Some(GroupSlot(g))
    {
      var x := groups'[g][i];
      MovedMembers(groups[g], GroupSlot(g), n, from, to);
      if x in groups[g] {
        var j :| 0 <= j < |groups[g]| && groups[g][j] == x;
      }
    }
  }

  lemma MoveKeepsCanvasLists(U: set<Node>, C: set<Canvas>, cont: map<Node, Option<Container>>,
                             groups: map<Node, seq<Node>>, canvases: map<Canvas, seq<Node>>,
                             n: Node, from: Option<Container>, to: Option<Container>)
    requires Tree(U, C, cont, groups, canvases) && n in U && cont[n] == from
    ensures MovedCanvases(canvases, n, from, to).Keys == C
    ensures CanvasShape(C, MovedCanvases(canvases, n, from, to))
    ensures CanvasParents(U, C, cont[n := to], MovedCanvases(canvases, n, from, to))
  {
    var canvases' := MovedCanvases(canvases, n, from, to);
    forall c | c in C
      ensures NoDup(canvases'[c])
    {
      Listed(U, C, cont, groups, canvases, n, CanvasSlot(c));
      MovedNoDup(canvases[c], CanvasSlot(c), n, from, to);
    }
    MoveKeepsCanvasParents(U, C, cont, groups, canvases, n, from, to);
  }

  lemma MoveKeepsCanvasParents(U: set<Node>, C: set<Canvas>, cont: map<Node, Option<Container>>,
                               groups: map<Node, seq<Node>>, canvases: map<Canvas, seq<Node>>,
                               n: Node, from: Option<Container>, to: Option<Container>)
    requires Tree(U, C, cont, groups, canvases) && n in U && cont[n] == from
    ensures MovedCanvases(canvases, n, from, to).Keys == C
    ensures CanvasParents(U, C, cont[n := to], MovedCanvases(canvases, n, from, to))
  {
    var cont', canvases' := cont[n := to], MovedCanvases(canvases, n, from, to);
    forall c, i | c in C && 0 <= i < |canvases'[c]|
      ensures canvases'[c][i] in U && cont'[canvases'[c][i]] == Some(CanvasSlot(c))
    {
      var x := canvases'[c][i];
      MovedMembers(canvases[c], CanvasSlot(c), n, from, to);
      if x in canvases[c] {
        var j :| 0 <= j < |canvases[c]| && canvases[c][j] == x;
      }
    }
  }

  // ---------------------------------------------------------------------
  // Acyclicity

  /** Following `container` from `n` through groups reaches a node outside
      any group within `k` steps. */
  predicate Rooted(cont: map<Node, Option<Container>>, n: Node, k: nat)
    decreases k
  {
    n in cont &&
    match cont[n]
    case None => true
    case Some(CanvasSlot(_)) => true
    case Some(GroupSlot(g)) => k > 0 && Rooted(cont, g, k - 1)
  }

  /** No node of `U` is its own ancestor: every upward walk ends. */
  ghost predicate Acyclic(U: set<Node>, cont: map<Node, Option<Container>>) {
    forall n :: n in U ==> exists k: nat :: Rooted(cont, n, k)
  }

  /** `up` is the walk from `up[0]` through its groups, on values. */
  predicate Ancestry(cont: map<Node, Option<Container>>, up: seq<Node>) {
    && |up| > 0
    && (forall i :: 0 <= i < |up| ==> up[i] in cont)
    && (forall i {:trigger cont[up[i]]} :: 0 <= i < |up| - 1 ==> cont[up[i]] == Some(GroupSlot(up[i + 1])))
    && (cont[up[|up| - 1]].None? || cont[up[|up| - 1]].value.CanvasSlot?)
  }

  /** The heap chain of a group inside `U` is its ancestry in the snapshot. */
  lemma ChainIsAncestry(U: set<Node>, g: Node, up: seq<Node>)
    requires Chain(g, up) && forall i :: 0 <= i < |up| ==> up[i] in U
    ensures Ancestry(Containers(U), up) && up[0] == g
  {
  }

  /** An ancestry of length `m + 1` is a walk of `m` steps. */
  lemma {:induction false} AncestryRooted(cont: map<Node, Option<Container>>, up: seq<Node>)
    requires Ancestry(cont, up)
    ensures Rooted(cont, up[0], |up| - 1)
    decreases |up|
  {
    if |up| > 1 {
      assert cont[up[0]] == Some(GroupSlot(up[1]));
      var rest := up[1..];
      forall i | 0 <= i < |rest| - 1
        ensures cont[rest[i]] == Some(GroupSlot(rest[i + 1]))
      {
        assert rest[i] == up[i + 1] && rest[i + 1] == up[i + 2];
      }
      assert rest[|rest| - 1] == up[|up| - 1];
      AncestryRooted(cont, rest);
      assert rest[0] == up[1];
    }
  }

  /** More steps never hurt. */
  lemma {:induction false} RootedMono(cont: map<Node, Option<Container>>, n: Node, k: nat, k': nat)
    requires Rooted(cont, n, k) && k <= k'
    ensures Rooted(cont, n, k')
    decreases k
  {
    match cont[n]
    case None =>
    case Some(CanvasSlot(_)) =>
    case Some(GroupSlot(g)) => RootedMono(cont, g, k - 1, k' - 1);
  }

  /** A walk from `x` before the move still ends after it, taking at most
      `|up|` more steps, when the target's ancestry `up` avoids `n`. */
  lemma {:induction false} RootedAfterMove(cont: map<Node, Option<Container>>, n: Node, to: Option<Container>,
                                           up: seq<Node>, x: Node, k: nat)
    requires n in cont && Rooted(cont, x, k)
    requires to.Some? && to.value.GroupSlot? ==> Ancestry(cont, up) && up[0] == to.value.group && n !in up
    ensures Rooted(cont[n := to], x, k + |up|)
    decreases k
  {
    var cont' := cont[n := to];
    if x == n {
      if to.Some? && to.value.GroupSlot? {
        assert Ancestry(cont', up) by {
          forall i | 0 <= i < |up| ensures cont'[up[i]] == cont[up[i]] {
            assert up[i] != n;
          }
        }
        AncestryRooted(cont', up);
        RootedMono(cont', up[0], |up| - 1, k + |up| - 1);
      }
    } else {
      match cont[x]
      case None =>
      case Some(CanvasSlot(_)) =>
      case Some(GroupSlot(g)) =>
        RootedAfterMove(cont, n, to, up, g, k - 1);
    }
  }

  /** Moving `n` into a container whose ancestry does not pass through `n`
      (or into a surface, or out of every container) keeps the scene
      acyclic. */
  lemma MoveKeepsAcyclic(U: set<Node>, cont: map<Node, Option<Container>>, n: Node, to: Option<Container>, up: seq<Node>)
    requires cont.Keys == U && n in U && Acyclic(U, cont)
    requires to.Some? && to.value.GroupSlot? ==> Ancestry(cont, up) && up[0] == to.value.group && n !in up
    ensures Acyclic(U, cont[n := to])
  {
    var cont' := cont[n := to];
    forall x | x in U
      ensures exists k: nat :: Rooted(cont', x, k)
    {
      var k: nat :| Rooted(cont, x, k);
      RootedAfterMove(cont, n, to, up, x, k);
    }
  }

  /** Two groups that hold each other (or one group that holds itself) are
      not acyclic, although they meet `Tree`. */
  lemma MutualGroupsCyclic(a: Node, b: Node)
    ensures !Acyclic({a, b}, map[a := Some(GroupSlot(b)), b := Some(GroupSlot(a))])
  {
    var cont := map[a := Some(GroupSlot(b)), b := Some(GroupSlot(a))];
    forall k: nat ensures !Rooted(cont, a, k) {
      CycleNeverRooted(a, b, k);
    }
  }

  lemma {:induction false} CycleNeverRooted(a: Node, b: Node, k: nat)
    ensures !Rooted(map[a := Some(GroupSlot(b)), b := Some(GroupSlot(a))], a, k)
    ensures !Rooted(map[a := Some(GroupSlot(b)), b := Some(GroupSlot(a))], b, k)
    decreases k
  {
    if k > 0 {
      CycleNeverRooted(a, b, k - 1);
    }
  }

  /** With consistent links a node is in no list but the one its container names. */
  lemma Listed(U: set<Node>, C: set<Canvas>, cont: map<Node, Option<Container>>,
               groups: map<Node, seq<Node>>, canvases: map<Canvas, seq<Node>>, n: Node, k: Container)
    requires Tree(U, C, cont, groups, canvases) && n in U
    ensures n in ListOf(k, groups, canvases) ==> cont[n] == Some(k)
  {
    var cs := ListOf(k, groups, canvases);
    if n in cs {
      var i :| 0 <= i < |cs| && cs[i] == n;
      match k
      case CanvasSlot(c) => assert cont[canvases[c][i]] == Some(k);
      case GroupSlot(g) => assert cont[groups[g][i]] == Some(k);
    }
  }

  /** Looking a list up after a move is moving the looked-up list. */
  lemma ListOfMoved(k: Container, groups: map<Node, seq<Node>>, canvases: map<Canvas, seq<Node>>,
                    n: Node, from: Option<Container>, to: Option<Container>)
    requires k.GroupSlot? ==> k.group in groups
    requires k.CanvasSlot? ==> k.canvas in canvases
    ensures ListOf(k, MovedGroups(groups, n, from, to), MovedCanvases(canvases, n, from, to))
         == Moved(ListOf(k, groups, canvases), k, n, from, to)
  {
  }

  /** Who is in a list after a move: the others as before, and the moved
      node exactly when the list is its new one, or it already was there and
      the list is not its old one. */
  lemma MovedMembers(cs: seq<Node>, h: Container, n: Node, from: Option<Container>, to: Option<Container>)
    ensures forall x :: x in Moved(cs, h, n, from, to) <==>
      (x in cs && (x == n ==> Some(h) != from)) || (x == n && Some(h) == to)
  {
  }

  /** A move keeps a list free of repeats, given the moved node is not
      already in a list it is appended to without being erased first. */
  lemma MovedNoDup(cs: seq<Node>, h: Container, n: Node, from: Option<Container>, to: Option<Container>)
    requires NoDup(cs)
    requires Some(h) == to && Some(h) != from ==> n !in cs
    ensures NoDup(Moved(cs, h, n, from, to))
  {
    var kept := if Some(h) == from then Erase(cs, n) else cs;
    if Some(h) == to {
      AppendFreshNoDup(kept, n);
    }
  }

  lemma AppendFreshNoDup(cs: seq<Node>, n: Node)
    requires NoDup(cs) && n !in cs
    ensures NoDup(cs + [n])
  {
  }
}
