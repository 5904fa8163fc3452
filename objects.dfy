/**
 * The objects that uproot hands out when a ROOT file is opened, as far as the
 * browser looks at them. Containers carry their raw keys (each possibly with a
 * `;<cycle>` suffix, in uproot's order) and the result of looking a stripped
 * name up in them; which cycle uproot picks for a name is decided by uproot and
 * is simply whatever `contents` holds.
 */
module UprootObjects {
  import opened Wrappers

  datatype Obj =
      /** `uproot.reading.ReadOnlyDirectory`: the file itself (`path` empty) or a TDirectory in it. */
    | Directory(filePath: string, path: seq<string>, keys: seq<string>, contents: map<string, Obj>)
      /** `uproot.TTree` */
    | TTree(name: string, numEntries: int, keys: seq<string>, contents: map<string, Obj>)
      /** `uproot.TBranch`; `jagged` is "its interpretation is an `AsJagged`". */
    | Branch(name: string, typename: string, jagged: bool)
      /** `uproot.behaviors.TH1.Histogram`; `axisLens` holds `len(ax)` for each axis. */
    | Histogram(name: string, classname: string, kind: string, axisLens: seq<nat>)
      /**
       * Anything else. `otherName` and `otherClassname` are the optional `name` and
       * `classname` attributes; `pythonClass` is `__class__.__name__`.
       */
    | Other(otherName: Option<string>, otherClassname: Option<string>, pythonClass: string)
}
