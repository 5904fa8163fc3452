/**
 * `make_tree`: the display tree, built depth-first and pre-order from a root item.
 * A lookup failure anywhere aborts the whole build with that failure.
 */
module Trees {
  import opened Wrappers
  import opened Labels
  import opened Items

  /** A rich `Tree` node: the keyword arguments it was made with and its children, in order. */
  datatype Display = Display(meta: NodeMeta, children: seq<Display>)

  /** Every lookup of a child list succeeds, at this node and all the way down. */
  ghost predicate Resolvable(it: Item)
    decreases it.obj
  {
    && it.Children().Ok?
    && forall i :: 0 <= i < |it.Children().value| ==>
         (ChildrenLookedUp(it);
          assert it.Children().value[i].obj == it.obj.contents[it.ChildNames()[i]];
          Resolvable(it.Children().value[i]))
  }

  /**
   * `e` is the first failing lookup of a pre-order walk: either listing this
   * node's children fails with `e`, or the walk first fails with `e` below one
   * of its children.
   */
  ghost predicate FailsWith(it: Item, e: Error)
    decreases it.obj, 1
  {
    if it.Children().Err? then it.Children().error == e
    else exists i :: 0 <= i < |it.Children().value| && FailsAt(it, i, e)
  }

  /** Every child before child `i` is resolvable, and the walk below child `i` first fails with `e`. */
  ghost predicate FailsAt(it: Item, i: nat, e: Error)
    requires it.Children().Ok? && i < |it.Children().value|
    decreases it.obj, 0
  {
    ChildrenLookedUp(it);
    assert it.Children().value[i].obj == it.obj.contents[it.ChildNames()[i]];
    && (forall j :: 0 <= j < i ==> Resolvable(it.Children().value[j]))
    && FailsWith(it.Children().value[i], e)
  }

  /**
   * The tree has the input's shape: each node carries its item's `meta()` and
   * its children stand one-to-one, in order, for the item's `children`.
   */
  ghost predicate Mirrors(h: Host, it: Item, d: Display)
    decreases it.obj
  {
    && d.meta == it.Meta(h)
    && it.Children().Ok?
    && |d.children| == |it.Children().value|
    && forall i :: 0 <= i < |d.children| ==>
         (ChildrenLookedUp(it);
          assert it.Children().value[i].obj == it.obj.contents[it.ChildNames()[i]];
          Mirrors(h, it.Children().value[i], d.children[i]))
  }

  /**
   * `make_tree(node)`: label the node, then walk its children in order and hang
   * the tree built for each one under it. The result mirrors the hierarchy when
   * every lookup succeeds, and is otherwise the first failing lookup.
   */
  method MakeTree(h: Host, node: Item) returns (r: Result<Display, Error>)
    ensures r.Ok? <==> Resolvable(node)
    ensures r.Ok? ==> Mirrors(h, node, r.value)
    ensures r.Err? ==> FailsWith(node, r.error)
    decreases node.obj
  {
    var meta := node.Meta(h);
    var listed := node.Children();
    if listed.Err? {
      ResolvableNeverFails(node, listed.error);
      return Err(listed.error);
    }
    var kids := listed.value;
    var subtrees: seq<Display> := [];
    var i := 0;
    while i < |kids|
      invariant 0 <= i <= |kids| && |subtrees| == i
      invariant forall j :: 0 <= j < i ==> Resolvable(kids[j]) && Mirrors(h, kids[j], subtrees[j])
    {
      ChildrenLookedUp(node);
      assert kids[i].obj == node.obj.contents[node.ChildNames()[i]];
      var sub := MakeTree(h, kids[i]);
      if sub.Err? {
        FirstFailingChild(node, i, sub.error);
        return Err(sub.error);
      }
      MirroredPrefix(h, kids, subtrees, sub.value);
      subtrees := subtrees + [sub.value];
      i := i + 1;
    }
    AllChildrenMirrored(h, node, subtrees);
    r := Ok(Display(meta, subtrees));
  }

  /** Appending the tree of the next child keeps every child up to it mirrored. */
  lemma MirroredPrefix(h: Host, kids: seq<Item>, subtrees: seq<Display>, d: Display)
    requires |subtrees| < |kids|
    requires forall j :: 0 <= j < |subtrees| ==> Resolvable(kids[j]) && Mirrors(h, kids[j], subtrees[j])
    requires Resolvable(kids[|subtrees|]) && Mirrors(h, kids[|subtrees|], d)
    ensures forall j :: 0 <= j < |subtrees| + 1 ==> Resolvable(kids[j]) && Mirrors(h, kids[j], (subtrees + [d])[j])
  {
  }

  /** When child `i` is the first whose walk fails, the walk of its parent fails the same way. */
  lemma FirstFailingChild(it: Item, i: nat, e: Error)
    requires it.Children().Ok? && i < |it.Children().value|
    requires forall j :: 0 <= j < i ==> Resolvable(it.Children().value[j])
    requires FailsWith(it.Children().value[i], e)
    ensures FailsWith(it, e) && !Resolvable(it)
  {
    assert FailsAt(it, i, e);
    ResolvableNeverFails(it, e);
  }

  /** A node whose children were all built and mirrored is mirrored by the node built over them. */
  lemma AllChildrenMirrored(h: Host, it: Item, subtrees: seq<Display>)
    requires it.Children().Ok? && |subtrees| == |it.Children().value|
    requires forall j :: 0 <= j < |subtrees| ==>
      Resolvable(it.Children().value[j]) && Mirrors(h, it.Children().value[j], subtrees[j])
    ensures Resolvable(it) && Mirrors(h, it, Display(it.Meta(h), subtrees))
  {
  }

  /** A node whose every lookup succeeds has no first failure. */
  lemma {:induction false} ResolvableNeverFails(it: Item, e: Error)
    ensures Resolvable(it) ==> !FailsWith(it, e)
    decreases it.obj
  {
    if Resolvable(it) && FailsWith(it, e) {
      assert it.Children().Ok?;
      assert FailsWith(it, e);
      assert exists i :: 0 <= i < |it.Children().value| && FailsAt(it, i, e);
      var i :| 0 <= i < |it.Children().value| && FailsAt(it, i, e);
      var c := it.Children().value[i];
      ChildrenLookedUp(it);
      assert c.obj == it.obj.contents[it.ChildNames()[i]];
      assert Resolvable(c) && FailsWith(c, e);
      ResolvableNeverFails(c, e);
    }
  }

  /** The first failure is unique: `make_tree` fails with one error only. */
  lemma {:induction false} FailsWithUnique(it: Item, e1: Error, e2: Error)
    requires FailsWith(it, e1) && FailsWith(it, e2)
    ensures e1 == e2
    decreases it.obj
  {
    if it.Children().Ok? {
      var kids := it.Children().value;
      var i1 :| 0 <= i1 < |kids| && FailsAt(it, i1, e1);
      var i2 :| 0 <= i2 < |kids| && FailsAt(it, i2, e2);
      if i1 < i2 {
        assert Resolvable(kids[i1]) && FailsWith(kids[i1], e1);
        ResolvableNeverFails(kids[i1], e1);
      } else if i2 < i1 {
        assert Resolvable(kids[i2]) && FailsWith(kids[i2], e2);
        ResolvableNeverFails(kids[i2], e2);
      } else {
        var c := kids[i1];
        assert FailsWith(c, e1) && FailsWith(c, e2);
        ChildrenLookedUp(it);
        assert c.obj == it.obj.contents[it.ChildNames()[i1]];
        FailsWithUnique(c, e1, e2);
      }
    }
  }

  /** The mirrored tree is unique: `make_tree` has one possible result for a hierarchy. */
  lemma {:induction false} MirrorsUnique(h: Host, it: Item, d1: Display, d2: Display)
    requires Mirrors(h, it, d1) && Mirrors(h, it, d2)
    ensures d1 == d2
    decreases it.obj
  {
    var kids := it.Children().value;
    ChildrenLookedUp(it);
    forall i | 0 <= i < |kids|
      ensures d1.children[i] == d2.children[i]
    {
      assert kids[i].obj == it.obj.contents[it.ChildNames()[i]];
      MirrorsUnique(h, kids[i], d1.children[i], d2.children[i]);
    }
    assert d1.children == d2.children;
  }

  /** Only a hierarchy whose every lookup succeeds has a mirroring tree. */
  lemma {:induction false} MirrorsOnlyResolvable(h: Host, it: Item, d: Display)
    requires Mirrors(h, it, d)
    ensures Resolvable(it)
    decreases it.obj
  {
    var kids := it.Children().value;
    ChildrenLookedUp(it);
    forall i | 0 <= i < |kids|
      ensures Resolvable(kids[i])
    {
      assert kids[i].obj == it.obj.contents[it.ChildNames()[i]];
      MirrorsOnlyResolvable(h, kids[i], d.children[i]);
    }
  }

  /** A node that is not a container becomes a single node with no children. */
  lemma LeafTree(h: Host, it: Item)
    requires !it.IsDir()
    ensures Resolvable(it)
    ensures Mirrors(h, it, Display(it.Meta(h), []))
  {
  }
}
