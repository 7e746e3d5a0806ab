/** What the scene's operations promise beyond their own contracts: which
    hit a render returns, that the tree's links survive every move and its
    acyclicity every move that keeps the target's ancestry clear of the node,
    and the facts about lists without repeats that the repaint scheduler relies on. */
module SceneProperties {
  import opened Wrappers
  import opened Scene

  // ---------------------------------------------------------------------
  // Lists without repeats

  /** The recursive definition of `NoDup` is the usual pairwise one. */
  lemma {:induction false} NoDupPairwise<T>(q: seq<T>)
    ensures NoDup(q) <==> forall i, j :: 0 <= i < j < |q| ==> q[i] != q[j]
  {
    if q != [] {
      var init := q[..|q| - 1];
      NoDupPairwise(init);
      assert forall i :: 0 <= i < |init| ==> init[i] == q[i];
      if NoDup(q) {
        forall i, j | 0 <= i < j < |q|
          ensures q[i] != q[j]
        {
          if j == |q| - 1 {
            assert q[i] == init[i];
          } else {
            assert init[i] != init[j];
          }
        }
      }
      if forall i, j :: 0 <= i < j < |q| ==> q[i] != q[j] {
        assert forall i, j :: 0 <= i < j < |init| ==> init[i] != init[j] by {
          forall i, j | 0 <= i < j < |init|
            ensures init[i] != init[j]
          {
            assert q[i] != q[j];
          }
        }
        forall i | 0 <= i < |init|
          ensures init[i] != q[|q| - 1]
        {
          assert q[i] != q[|q| - 1];
        }
      }
    }
  }

  /** Invalidating the same surface twice in a row is invalidating it once. */
  lemma EnqueuedTwice(q: seq<Canvas>, o: Option<Canvas>)
    ensures Enqueued(Enqueued(q, o), o) == Enqueued(q, o)
  {
  }

  // ---------------------------------------------------------------------
  // Hit selection

  /** A hit is always a painted shape of the scene that the context's
      point-in-path test accepted, rendered on the surface the pointer
      sample belongs to. */
  lemma {:induction false} HitIsPaintedShape(n: Node, watched: bool, inPath: Node -> bool, U: set<Node>, d: nat)
    requires Finite(U, n, d)
    decreases d, 1
    ensures Hit(n, watched, inPath, U, d).Some? ==>
      var h := Hit(n, watched, inPath, U, d).value;
      watched && h in U && h.kind == ShapeNode && Painted(h) && inPath(h)
  {
    if n.kind == GroupNode && d > 0 {
      ChildHitsArePaintedShapes(n.children, watched, inPath, U, d - 1);
    }
  }

  lemma {:induction false} ChildHitsArePaintedShapes(cs: seq<Node>, watched: bool, inPath: Node -> bool,
                                                     U: set<Node>, d: nat)
    requires forall i :: 0 <= i < |cs| ==> Finite(U, cs[i], d)
    decreases d, 2, |cs|
    ensures ChildHits(cs, watched, inPath, U, d).Some? ==>
      var h := ChildHits(cs, watched, inPath, U, d).value;
      watched && h in U && h.kind == ShapeNode && Painted(h) && inPath(h)
  {
    if cs != [] {
      HitIsPaintedShape(cs[|cs| - 1], watched, inPath, U, d);
      ChildHitsArePaintedShapes(cs[..|cs| - 1], watched, inPath, U, d);
    }
  }

  /** The hit of a list of children is the hit of the last child that has
      one. */
  lemma {:induction false} ChildHitsIsLastHit(cs: seq<Node>, watched: bool, inPath: Node -> bool,
                                              U: set<Node>, d: nat, h: Node)
    requires forall i :: 0 <= i < |cs| ==> Finite(U, cs[i], d)
    ensures ChildHits(cs, watched, inPath, U, d) == Some(h) <==>
      exists i :: 0 <= i < |cs| && Hit(cs[i], watched, inPath, U, d) == Some(h) &&
        forall j :: i < j < |cs| ==> Hit(cs[j], watched, inPath, U, d) == None
  {
    if cs != [] {
      var k := |cs| - 1;
      var init := cs[..k];
      assert forall i :: 0 <= i < k ==> init[i] == cs[i];
      ChildHitsIsLastHit(init, watched, inPath, U, d, h);
      if Hit(cs[k], watched, inPath, U, d).Some? {
        if ChildHits(cs, watched, inPath, U, d) != Some(h) {
          forall i | 0 <= i < |cs| && Hit(cs[i], watched, inPath, U, d) == Some(h)
            ensures exists j :: i < j < |cs| && Hit(cs[j], watched, inPath, U, d) != None
          {
            assert i < k;
          }
        }
      } else if ChildHits(cs, watched, inPath, U, d) == Some(h) {
        var i :| 0 <= i < |init| && Hit(init[i], watched, inPath, U, d) == Some(h) &&
          forall j :: i < j < |init| ==> Hit(init[j], watched, inPath, U, d) == None;
        assert forall j :: i < j < |cs| ==> Hit(cs[j], watched, inPath, U, d) == None by {
          forall j | i < j < |cs|
            ensures Hit(cs[j], watched, inPath, U, d) == None
          {
            if j < k {
              assert cs[j] == init[j];
            }
          }
        }
      } else {
        forall i | 0 <= i < |cs| && Hit(cs[i], watched, inPath, U, d) == Some(h)
          ensures exists j :: i < j < |cs| && Hit(cs[j], watched, inPath, U, d) != None
        {
          assert i < k && init[i] == cs[i];
          var j :| i < j < |init| && Hit(init[j], watched, inPath, U, d) != None;
          assert init[j] == cs[j];
        }
      }
    }
  }

  /** A list of children has no hit exactly when no child has one. */
  lemma {:induction false} ChildHitsNoneIffNoHit(cs: seq<Node>, watched: bool, inPath: Node -> bool,
                                                 U: set<Node>, d: nat)
    requires forall i :: 0 <= i < |cs| ==> Finite(U, cs[i], d)
    ensures ChildHits(cs, watched, inPath, U, d) == None <==>
      forall i :: 0 <= i < |cs| ==> Hit(cs[i], watched, inPath, U, d) == None
  {
    if cs != [] {
      var k := |cs| - 1;
      var init := cs[..k];
      assert forall i :: 0 <= i < k ==> init[i] == cs[i];
      ChildHitsNoneIffNoHit(init, watched, inPath, U, d);
    }
  }

  /** A surface the pointer sample does not belong to yields no hit. */
  lemma UnwatchedHitsNothing(cs: seq<Node>, inPath: Node -> bool, U: set<Node>, d: nat)
    requires forall i :: 0 <= i < |cs| ==> Finite(U, cs[i], d)
    ensures ChildHits(cs, false, inPath, U, d) == None
  {
    ChildHitsArePaintedShapes(cs, false, inPath, U, d);
  }

  // ---------------------------------------------------------------------
  // The tree shape

  /** With consistent links no node is in two lists. */
  lemma SingleParent(U: set<Node>, C: set<Canvas>, cont: map<Node, Option<Container>>,
                     groups: map<Node, seq<Node>>, canvases: map<Canvas, seq<Node>>,
                     n: Node, a: Container, b: Container)
    requires Tree(U, C, cont, groups, canvases) && n in U
    requires n in ListOf(a, groups, canvases) && n in ListOf(b, groups, canvases)
    ensures a == b && cont[n] == Some(a)
  {
    Listed(U, C, cont, groups, canvases, n, a);
    Listed(U, C, cont, groups, canvases, n, b);
  }

  /** After an injection into `to` the node is in `to`'s list and in no
      other; after an ejection it is in no list at all. */
  lemma MovedIntoTargetOnly(U: set<Node>, C: set<Canvas>, cont: map<Node, Option<Container>>,
                            groups: map<Node, seq<Node>>, canvases: map<Canvas, seq<Node>>,
                            n: Node, from: Option<Container>, to: Option<Container>, k: Container)
    requires Tree(U, C, cont, groups, canvases) && n in U && cont[n] == from
    requires to.Some? ==> Holds(U, C, to.value)
    ensures n in ListOf(k, MovedGroups(groups, n, from, to), MovedCanvases(canvases, n, from, to)) <==> to == Some(k)
  {
    MoveKeepsTree(U, C, cont, groups, canvases, n, from, to);
    Listed(U, C, cont[n := to], MovedGroups(groups, n, from, to), MovedCanvases(canvases, n, from, to), n, k);
    if to == Some(k) {
      ListOfMoved(k, groups, canvases, n, from, to);
    }
  }

  /** What `Inject`'s preconditions give for acyclicity: the chain above a
      target group avoids the node, so the snapshot of containers that
      `Inject` ensures is acyclic again. */
  lemma InjectKeepsAcyclic(U: set<Node>, n: Node, target: Container, upNew: seq<Node>)
    requires n in U && Acyclic(U, Containers(U))
    requires target.GroupSlot? ==> Chain(target.group, upNew) && n !in upNew
    requires target.GroupSlot? ==> forall i :: 0 <= i < |upNew| ==> upNew[i] in U
    ensures Acyclic(U, Containers(U)[n := Some(target)])
  {
    if target.GroupSlot? {
      ChainIsAncestry(U, target.group, upNew);
    }
    MoveKeepsAcyclic(U, Containers(U), n, Some(target), upNew);
  }

  /** Ejecting never makes a cycle. */
  lemma EjectKeepsAcyclic(U: set<Node>, cont: map<Node, Option<Container>>, n: Node)
    requires cont.Keys == U && n in U && Acyclic(U, cont)
    ensures Acyclic(U, cont[n := None])
  {
    MoveKeepsAcyclic(U, cont, n, None, []);
  }

  /** The lists of a scene's containers are the ones the snapshot maps hold. */
  lemma ListOfHolder(U: set<Node>, C: set<Canvas>, k: Container)
    requires Holds(U, C, k)
    ensures ListOf(k, GroupLists(U), CanvasLists(C)) == ChildrenOf(k)
  {
  }

  /** In a consistent scene a node is in the children of at most one of the
      scene's containers, the one its `container` field names. */
  lemma ConsistentSingleParent(U: set<Node>, C: set<Canvas>, n: Node, a: Container, b: Container)
    requires Consistent(U, C) && n in U && Holds(U, C, a) && Holds(U, C, b)
    requires n in ChildrenOf(a) && n in ChildrenOf(b)
    ensures a == b && n.container == Some(a)
  {
    ListOfHolder(U, C, a);
    ListOfHolder(U, C, b);
    SingleParent(U, C, Containers(U), GroupLists(U), CanvasLists(C), n, a, b);
  }

  /** Erasing a node that is not listed leaves the list as it was. */
  lemma {:induction false} EraseAbsent(cs: seq<Node>, n: Node)
    requires n !in cs
    ensures Erase(cs, n) == cs
  {
    if cs != [] {
      var init := cs[..|cs| - 1];
      assert n !in init by {
        forall i | 0 <= i < |init| ensures init[i] != n { assert init[i] == cs[i]; }
      }
      EraseAbsent(init, n);
      assert cs == init + [cs[|cs| - 1]];
    }
  }

  /** Re-injecting a node into the container it is already in moves it to
      the end of that container's list. */
  lemma ReinjectMovesToEnd(U: set<Node>, C: set<Canvas>, cont: map<Node, Option<Container>>,
                           groups: map<Node, seq<Node>>, canvases: map<Canvas, seq<Node>>,
                           n: Node, k: Container)
    requires Tree(U, C, cont, groups, canvases) && n in U && cont[n] == Some(k)
    ensures var cs := ListOf(k, groups, canvases);
      var cs' := ListOf(k, MovedGroups(groups, n, Some(k), Some(k)), MovedCanvases(canvases, n, Some(k), Some(k)));
      |cs'| == |cs| && cs'[|cs'| - 1] == n && multiset(cs') == multiset(cs)
  {
    var cs := ListOf(k, groups, canvases);
    assert Holds(U, C, k) && n in cs && NoDup(cs) by {
      match k
      case CanvasSlot(c) =>
      case GroupSlot(g) =>
    }
    ListOfMoved(k, groups, canvases, n, Some(k), Some(k));
    var i :| 0 <= i < |cs| && cs[i] == n;
    EraseThenAppend(cs, n, i);
  }

  /** Erasing the single occurrence of `n` and appending it again permutes
      the list and puts `n` last. */
  lemma EraseThenAppend(cs: seq<Node>, n: Node, i: nat)
    requires i < |cs| && cs[i] == n && NoDup(cs)
    ensures var r := Erase(cs, n) + [n];
      |r| == |cs| && r[|r| - 1] == n && multiset(r) == multiset(cs)
  {
    EraseSingle(cs, n, i);
    var before, after := cs[..i], cs[i + 1..];
    assert cs == before + [n] + after;
    assert multiset(before + after + [n]) == multiset(before) + multiset(after) + multiset{n};
  }

  /** Erasing the one occurrence at `i` of a list without repeats. */
  lemma {:induction false} EraseSingle(cs: seq<Node>, n: Node, i: nat)
    requires i < |cs| && cs[i] == n && NoDup(cs)
    ensures Erase(cs, n) == cs[..i] + cs[i + 1..]
  {
    var k := |cs| - 1;
    var init := cs[..k];
    if i == k {
      EraseAbsent(init, n);
      assert Erase(cs, n) == init;
      assert cs[..i] + cs[i + 1..] == init;
    } else {
      assert cs[k] != n && init[i] == n by {
        assert init[i] == cs[i];
      }
      EraseSingle(init, n, i);
      assert init[..i] == cs[..i];
      var tail := init[i + 1..];
      assert Erase(cs, n) == (cs[..i] + tail) + [cs[k]];
      DropThenSnoc(cs, i);
      assert (cs[..i] + tail) + [cs[k]] == cs[..i] + (tail + [cs[k]]);
    }
  }

  lemma DropThenSnoc<T>(cs: seq<T>, i: nat)
    requires i + 1 < |cs|
    ensures cs[..|cs| - 1][i + 1..] + [cs[|cs| - 1]] == cs[i + 1..]
  {
  }
}
