/** The memoising path object: segments are appended by `Push`, and
    `ToCommands` compiles them only when no compiled list is cached. */
module PathCache {
  import opened Wrappers
  import opened PathCompiler

  class Path {
    /** The segments pushed so far, in order. */
    var path: seq<Segment>
    /** The cached compiled command list; `None` stands for the source's null. */
    var canvas: Option<seq<Command>>
    /** The box compiled together with the cached list. */
    var box: Box
    /** The arc geometry the compiler uses. */
    const solve: ArcSolver

    /** A cached list, when there is one, is what compiling the current
        segments gives, and the box is the one compiled with it. */
    ghost predicate Valid()
      reads this
    {
      canvas.Some? ==> Compiled(canvas.value, box) == Compile(path, solve)
    }

    constructor (parts: seq<Segment>, solve: ArcSolver)
      ensures Valid()
      ensures path == parts && canvas == None && this.solve == solve
    {
      path := parts;
      canvas := None;
      box := Box(0.0, 0.0, 0.0, 0.0, 0.0, 0.0);
      this.solve := solve;
    }

    /** Appending segments drops the cached list; the box is left as it was. */
    method Push(segs: seq<Segment>)
      modifies this
      ensures Valid()
      ensures path == old(path) + segs
      ensures canvas == None && box == old(box)
    {
      canvas := None;
      path := path + segs;
    }

    /** The compiled list of the current segments: the cached one when there
        is one, otherwise a fresh compilation, which is then cached. */
    method ToCommands() returns (commands: seq<Command>)
      requires Valid()
      modifies this
      ensures Valid()
      ensures path == old(path)
      ensures canvas == Some(commands)
      ensures Compiled(commands, box) == Compile(path, solve)
      ensures old(canvas).Some? ==> commands == old(canvas).value && box == old(box)
    {
      if canvas.Some? {
        commands := canvas.value;
      } else {
        var b;
        commands, b := Extrapolate(path, solve);
        canvas := Some(commands);
        box := b;
      }
    }
  }
}
