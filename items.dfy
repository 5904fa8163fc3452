/**
 * `UprootItem`: an uproot object together with the slash-separated display path
 * it was reached by.
 */
module Items {
  import opened Wrappers
  import opened Lex
  import opened UprootObjects
  import opened Labels

  /** Looking a child name up in its container failed (uproot's `KeyInFileError`). */
  datatype Error = KeyNotFound(key: string)

  datatype Item = Item(path: string, obj: Obj) {

    /** `is_dir`: the file, a TDirectory or a TTree. */
    predicate IsDir()
    {
      obj.Directory? || obj.TTree?
    }

    /** The names the children are listed under, in the order they are listed. */
    function ChildNames(): (names: seq<string>)
      ensures !IsDir() ==> names == []
    {
      if IsDir() then SortedNames(obj.keys) else []
    }

    /**
     * `children`: one item per child name, looked up in the container, with the
     * name appended to this item's path. A name that cannot be looked up is an
     * error (see `ChildrenFailAtFirstMissingName`).
     */
    function Children(): (r: Result<seq<Item>, Error>)
      ensures !IsDir() ==> r == Ok([])
      ensures r.Ok? ==> |r.value| == |ChildNames()|
    {
      if !IsDir() then Ok([])
      else
        var names := ChildNames();
        var k := FirstMissing(names, obj.contents);
        if k < |names| then Err(KeyNotFound(names[k]))
        else Ok(seq(|names|, i requires 0 <= i < |names| => Item(path + "/" + names[i], obj.contents[names[i]])))
    }

    /** `meta()`: the node's label and guide style. */
    function Meta(h: Host): (m: NodeMeta)
      ensures m.guideStyle.Some? <==> IsDir()
    {
      ProcessItem(h, obj)
    }

    /** `label()`: rich text, assembled from pieces except for a directory's link markup. */
    function Label(h: Host): (t: Text)
      ensures t.Assembled? <==> !obj.Directory?
    {
      ProcessItem(h, obj).nodeLabel
    }
  }

  /** Each child is the entry stored under its name, with the name appended to the parent's path. */
  lemma ChildrenLookedUp(it: Item)
    requires it.Children().Ok?
    ensures forall i :: 0 <= i < |it.Children().value| ==>
      && it.ChildNames()[i] in it.obj.contents
      && it.Children().value[i] == Item(it.path + "/" + it.ChildNames()[i], it.obj.contents[it.ChildNames()[i]])
  {
  }

  /**
   * A container's child names are strictly increasing (so no name repeats), are
   * exactly the keys cut at their first `;`, and contain no `;`.
   */
  lemma ChildNamesSortedAndStripped(it: Item)
    requires it.IsDir()
    ensures StrictlySorted(it.ChildNames())
    ensures Elems(it.ChildNames()) == NameSet(it.obj.keys)
    ensures forall i :: 0 <= i < |it.ChildNames()| ==> ';' !in it.ChildNames()[i]
  {
    var names := it.ChildNames();
    SortedNamesSpec(it.obj.keys);
    forall i | 0 <= i < |names| ensures ';' !in names[i] {
      assert names[i] in Elems(names);
      var k :| k in it.obj.keys && StripVersion(k) == names[i];
    }
  }

  /** The position of the first name that is not in `contents`, or `|names|` when all of them are. */
  function FirstMissing(names: seq<string>, contents: map<string, Obj>): (k: nat)
    ensures k <= |names|
    ensures forall j :: 0 <= j < k ==> names[j] in contents
    ensures k < |names| ==> names[k] !in contents
  {
    if names == [] || names[0] !in contents then 0
    else 1 + FirstMissing(names[1..], contents)
  }

  /**
   * Listing a container's children fails exactly when one of its names is not
   * found in it, and the name reported is the least missing one.
   */
  lemma ChildrenFailAtFirstMissingName(it: Item)
    ensures it.Children().Ok? <==> forall n :: n in it.ChildNames() ==> n in it.obj.contents
    ensures it.Children().Err? ==>
      && it.IsDir()
      && it.Children().error.key in NameSet(it.obj.keys)
      && it.Children().error.key !in it.obj.contents
      && forall n :: n in NameSet(it.obj.keys) && Less(n, it.Children().error.key) ==> n in it.obj.contents
  {
    if it.IsDir() {
      var names := it.ChildNames();
      ChildNamesSortedAndStripped(it);
      var i := FirstMissing(names, it.obj.contents);
      var r := it.Children();
      if r.Err? {
        assert names[i] in Elems(names);
        forall n | n in NameSet(it.obj.keys) && Less(n, r.error.key) ensures n in it.obj.contents {
          assert n in Elems(names);
          var j :| 0 <= j < |names| && names[j] == n;
          if j >= i {
            if j == i { LessIrreflexive(n); } else { LessAsymmetric(names[i], names[j]); }
          }
        }
      }
    }
  }

  lemma {:induction false} LessAfterCommonPrefix(p: string, a: string, b: string)
    ensures Less(p + a, p + b) <==> Less(a, b)
  {
    if p != [] {
      assert (p + a)[1..] == p[1..] + a;
      assert (p + b)[1..] == p[1..] + b;
      LessAfterCommonPrefix(p[1..], a, b);
    } else {
      assert p + a == a && p + b == b;
    }
  }

  /** Children's paths are strictly increasing too, so no two children share a path. */
  lemma ChildPathsStrictlySorted(it: Item)
    requires it.Children().Ok?
    ensures forall i, j :: 0 <= i < j < |it.Children().value| ==>
      Less(it.Children().value[i].path, it.Children().value[j].path)
  {
    var kids := it.Children().value;
    var names := it.ChildNames();
    if it.IsDir() { ChildNamesSortedAndStripped(it); }
    forall i, j | 0 <= i < j < |kids| ensures Less(kids[i].path, kids[j].path) {
      assert kids[i].path == (it.path + "/") + names[i];
      assert kids[j].path == (it.path + "/") + names[j];
      LessAfterCommonPrefix(it.path + "/", names[i], names[j]);
    }
  }

  /** The children do not depend on the order uproot lists the keys in. */
  lemma ChildrenIgnoreKeyOrder(it1: Item, it2: Item)
    requires it1.obj.Directory? && it2.obj.Directory?
    requires it1.path == it2.path && it1.obj.contents == it2.obj.contents
    requires NameSet(it1.obj.keys) == NameSet(it2.obj.keys)
    ensures it1.Children() == it2.Children()
  {
    SortedNamesOfSameNames(it1.obj.keys, it2.obj.keys);
  }

  /** A container listing a single name has exactly one child, found under that name. */
  lemma OneNameOneChild(it: Item, name: string)
    requires it.IsDir() && name in it.obj.contents
    requires |it.obj.keys| > 0 && forall k :: k in it.obj.keys ==> StripVersion(k) == name
    ensures it.Children() == Ok([Item(it.path + "/" + name, it.obj.contents[name])])
  {
    assert NameSet(it.obj.keys) == {name} by {
      assert StripVersion(it.obj.keys[0]) == name;
    }
    ChildNamesSortedAndStripped(it);
    StrictlySortedUnique(it.ChildNames(), [name]);
    ChildrenFailAtFirstMissingName(it);
    assert it.Children().value == [Item(it.path + "/" + name, it.obj.contents[name])];
  }

  /** Two cycles of one key collapse to one child, listed under the bare name. */
  lemma CyclesCollapse(path: string, file: string, o: Obj)
    ensures Item(path, Directory(file, [], ["Events;2", "Events;1"], map["Events" := o])).Children()
            == Ok([Item(path + "/" + "Events", o)])
  {
    StripVersionAt("Events;1", 6);
    StripVersionAt("Events;2", 6);
    OneNameOneChild(Item(path, Directory(file, [], ["Events;2", "Events;1"], map["Events" := o])), "Events");
  }

  /** Only the text before the first `;` is kept, even when more follows. */
  lemma StripsAtFirstSemicolon()
    ensures StripVersion("a;b;3") == "a"
    ensures StripVersion("Events;x") == StripVersion("Events") == "Events"
  {
    StripVersionAt("a;b;3", 1);
    StripVersionAt("Events;x", 6);
    StripVersionNone("Events");
  }

  /** A file listing only `events;1`: its one child sits at `<path>/events`. */
  lemma EventsUnder(path: string, file: string, events: Obj)
    ensures Item(path, Directory(file, [], ["events;1"], map["events" := events])).Children()
            == Ok([Item(path + "/" + "events", events)])
  {
    StripVersionAt("events;1", 6);
    OneNameOneChild(Item(path, Directory(file, [], ["events;1"], map["events" := events])), "events");
  }

  /** A TTree listing only the branch `pt`: its one child sits at `<path>/pt`. */
  lemma PtUnder(path: string, pt: Obj)
    ensures Item(path, TTree("events", 1, ["pt"], map["pt" := pt])).Children()
            == Ok([Item(path + "/" + "pt", pt)])
  {
    StripVersionNone("pt");
    OneNameOneChild(Item(path, TTree("events", 1, ["pt"], map["pt" := pt])), "pt");
  }

  /** From the root path `/`, the child `events` gets the path `//events`. */
  lemma RootChildPath(file: string, events: Obj)
    ensures Item("/", Directory(file, [], ["events;1"], map["events" := events])).Children()
            == Ok([Item("//events", events)])
  {
    EventsUnder("/", file, events);
    assert "/" + "/" + "events" == "//events";
  }

  /** One level further down, the branch `pt` of `//events` gets the path `//events/pt`. */
  lemma GrandchildPath(pt: Obj)
    ensures Item("//events", TTree("events", 1, ["pt"], map["pt" := pt])).Children()
            == Ok([Item("//events/pt", pt)])
  {
    PtUnder("//events", pt);
    assert "//events" + "/" + "pt" == "//events/pt";
  }
}
