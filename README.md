# uproot-browser display tree, in Dafny

This project models the core of uproot-browser's `tree.py`. That module turns the
hierarchy of a ROOT file, as opened by uproot, into a labelled rich display tree.
The model covers three parts.

- **`UprootItem`** (`items.dfy`). An uproot object together with the display path
  it was reached by.
  - `is_dir`: the file, a TDirectory and a TTree are containers.
  - `children`:
    - cut every key at its first `;`;
    - drop repeated names;
    - sort the names by code point;
    - look each name up in the container;
    - append the name to the parent's path with a `/`.
  - `meta()` and `label()` delegate to `process_item`.
- **`process_item`** (`labels.dfy`). The fallback labeller plus its four
  registered specialisations: directory/file, TTree, TBranch and histogram.
  - Each returns the keyword arguments of a rich `Tree` node: a label, and a
    guide style for containers only.
  - A rich `Text.assemble` label is a list of (text, style) pieces.
  - A `Text.from_markup` label is its markup string.
- **`make_tree`** (`trees.dfy`). A method with a loop over the children and a
  recursive call per child.
  - It builds a value tree (`Display`) rather than mutating a rich `Tree`.
  - It is proved to mirror the input hierarchy exactly when every lookup
    succeeds. Otherwise it returns the first failing lookup of the pre-order walk.

Supporting modules:
- `objects.dfy`: the uproot objects as one closed datatype, in place of
  `singledispatch` over Python classes.
- `lex.dfy`: Python's string order, `key.split(";")[0]`, the sorted
  de-duplicated name list, and decimal rendering of axis lengths.
- `wrappers.dfy`: `Option` and `Result`.

Two points follow the code exactly:
- **Paths.** The child path is the f-string `f"{self.path}/{key}"`. From the root
  path `/`, the child `events` therefore sits at `//events`, and its branch `pt`
  at `//events/pt` (`Items.RootChildPath`, `Items.GrandchildPath`).
- **Keys.** A key is cut at its first `;`, whatever follows it, not only at a
  trailing `;<cycle>` (`Items.StripsAtFirstSemicolon`).

## Model

| member | source | states |
|---|---|---|
| Items.Item.ChildNames | src/uproot_browser/tree.py:42-48 | A non-container lists no child names |
| Items.Item.Children | src/uproot_browser/tree.py:42-49 | A non-container has the empty child list. A successful listing has one child per child name |
| Items.Item.Meta | src/uproot_browser/tree.py:36-37 | `meta()` carries a guide style exactly when the item is a container (`is_dir`) |
| Items.Item.Label | src/uproot_browser/tree.py:39-40 | `label()` is an assembled text for every object except a directory, whose label is markup |
| Items.ChildrenLookedUp | src/uproot_browser/tree.py:47-49 | Child i is the entry stored under the i-th name, with path `parent.path + "/" + name` |
| Items.ChildNamesSortedAndStripped | src/uproot_browser/tree.py:46-48 | A container's child names are strictly increasing, so there are no duplicates. Their set equals the keys cut at their first `;`, and no name contains `;` |
| Items.FirstMissing | src/uproot_browser/tree.py:47-49 | The position of the first name absent from the container: every earlier name is present, and that one is not |
| Items.ChildrenFailAtFirstMissingName | src/uproot_browser/tree.py:46-49 | Listing children succeeds iff every child name is found. On failure the item is a container, and the reported key is a stripped key that is not found while every smaller stripped key is found |
| Items.ChildPathsStrictlySorted | src/uproot_browser/tree.py:47-49 | The children's paths are strictly increasing, so no two children share a path |
| Items.ChildrenIgnoreKeyOrder | src/uproot_browser/tree.py:46-48 | Two directories with the same stripped-name set and the same contents have the same children, whatever order and cycles their keys are listed in |
| Items.OneNameOneChild | src/uproot_browser/tree.py:46-49 | When every key strips to one name, the container has exactly one child, found under that name |
| Items.CyclesCollapse | src/uproot_browser/tree.py:46-49 | `Events;2` and `Events;1` collapse to the single child `Events` |
| Items.StripsAtFirstSemicolon | src/uproot_browser/tree.py:46 | `a;b;3` becomes `a`. `Events;x` and `Events` both become `Events` |
| Items.EventsUnder | src/uproot_browser/tree.py:46-48 | A file listing only `events;1` has the one child `<path>/events` |
| Items.PtUnder | src/uproot_browser/tree.py:46-48 | A TTree listing only `pt` has the one child `<path>/pt` |
| Items.RootChildPath | src/uproot_browser/tree.py:48 | From the root path `/`, the child `events` has the path `//events` |
| Items.GrandchildPath | src/uproot_browser/tree.py:48 | Under `//events`, the branch `pt` has the path `//events/pt` |
| Lex.LessIrreflexive | src/uproot_browser/tree.py:48 | No string sorts before itself |
| Lex.LessTransitive | src/uproot_browser/tree.py:48 | The string order used by `sorted` is transitive |
| Lex.LessConnected | src/uproot_browser/tree.py:48 | Of two distinct strings, one sorts before the other (a total order) |
| Lex.LessAsymmetric | src/uproot_browser/tree.py:48 | Two strings never sort before each other |
| Lex.StripVersion | src/uproot_browser/tree.py:46 | `key.split(";")[0]`: a prefix of the key with no `;`, which is either the whole key or is followed in the key by `;` |
| Lex.StripVersionAt | src/uproot_browser/tree.py:46 | A key whose first `;` is at position n is cut to its first n characters |
| Lex.StripVersionNone | src/uproot_browser/tree.py:46 | A key without `;` is kept whole |
| Lex.InsertElems | src/uproot_browser/tree.py:46-48 | Inserting a name into the name list adds that name and nothing else |
| Lex.InsertKeepsSorted | src/uproot_browser/tree.py:46-48 | Inserting a name keeps the name list strictly increasing |
| Lex.SortedNamesSpec | src/uproot_browser/tree.py:46-48 | `sorted({key.split(";")[0] for key in keys})` is strictly increasing, and its elements are exactly the stripped keys |
| Lex.StrictlySortedUnique | src/uproot_browser/tree.py:48 | Two strictly increasing lists with the same elements are equal, so `sorted` of a set has one possible result |
| Lex.SortedNamesOfSameNames | src/uproot_browser/tree.py:46-48 | The sorted name list depends only on the set of stripped keys |
| Lex.DigitChar | src/uproot_browser/tree.py:154 | A digit value is rendered as the decimal digit character of that value |
| Lex.Decimal | src/uproot_browser/tree.py:154 | `f"{n}"` is a non-empty run of decimal digits with no leading zero |
| Lex.DigitValue | src/uproot_browser/tree.py:154 | Reading a digit character gives the value that renders back to it |
| Lex.DecimalRoundTrip | src/uproot_browser/tree.py:154 | Reading `f"{n}"` back gives n |
| Labels.ProcessItem | src/uproot_browser/tree.py:68-163 | Total over all objects. A guide style is set exactly for directories (`bold bright_blue`) and TTrees (`bold bright_green`). The label is markup exactly for directories |
| Labels.FallbackLabel | src/uproot_browser/tree.py:68-80 | An unregistered object has no guide style. Its label has three pieces: `❓ `; the bold name or `<unnamed>`; and the italic `classname`, or the Python class name when `classname` is absent |
| Labels.DirectoryLabel | src/uproot_browser/tree.py:83-107 | Inside the file, the label links to `file://<path>:/<escaped first component>` and shows that component. The file itself links to `file://<path>` and shows its escaped base name |
| Labels.TTreeLabel | src/uproot_browser/tree.py:110-125 | A TTree label is the palm icon, the bold name and the `:g`-formatted entry count in parentheses |
| Labels.BranchLabel | src/uproot_browser/tree.py:128-145 | A branch gets 🍃 iff it is jagged and 🍁 iff it is not. It has the italic type name and no guide style |
| Labels.HistogramLabel | src/uproot_browser/tree.py:148-163 | A histogram gets 📊 iff its kind is `COUNT` and 📈 otherwise. It has the italic class name and no guide style. Its size summary is parenthesised and reads back as its axis lengths |
| Labels.AssembledLabelShowsName | src/uproot_browser/tree.py:73-77 | Every non-directory label starts with an unstyled icon followed by the bold display name |
| Labels.IconDeterminesKind | src/uproot_browser/tree.py:76-153 | Two non-directory labels with the same icon come from the same kind of object. Branches with the same icon agree on jaggedness, and histograms with the same icon agree on being `COUNT` |
| Labels.JoinSizesSeparators | src/uproot_browser/tree.py:154 | n axis lengths are joined with exactly n - 1 `×` signs (0 when there are no axes) |
| Labels.DigitRun | src/uproot_browser/tree.py:154 | The longest all-digit prefix of a string |
| Labels.JoinSizesRoundTrip | src/uproot_browser/tree.py:154 | Splitting the `" × "`-joined sizes back gives the axis lengths |
| Trees.MakeTree | src/uproot_browser/tree.py:52-65 | The build succeeds iff every lookup in the hierarchy succeeds. It then returns a tree mirroring the hierarchy: each node carries its item's `meta()`, and its children stand for `children` one-to-one and in order. Otherwise it returns the first failing lookup of the pre-order walk |
| Trees.MirroredPrefix | src/uproot_browser/tree.py:62-63 | Appending the next child's tree keeps every child built so far mirrored |
| Trees.FirstFailingChild | src/uproot_browser/tree.py:62-63 | When the first failing child fails with e, its parent's walk fails with e and the parent is not fully resolvable |
| Trees.AllChildrenMirrored | src/uproot_browser/tree.py:57-65 | A node whose children's trees all mirror them is mirrored by the node labelled with `meta()` over those trees |
| Trees.ResolvableNeverFails | src/uproot_browser/tree.py:52-65 | A hierarchy whose lookups all succeed has no failing lookup |
| Trees.FailsWithUnique | src/uproot_browser/tree.py:52-65 | The first failure of the walk is unique |
| Trees.MirrorsUnique | src/uproot_browser/tree.py:52-65 | The mirroring tree is unique, so `make_tree` has one possible result per hierarchy |
| Trees.MirrorsOnlyResolvable | src/uproot_browser/tree.py:52-65 | Only a hierarchy whose lookups all succeed has a mirroring tree |
| Trees.LeafTree | src/uproot_browser/tree.py:44-65 | A non-container becomes a single node labelled with its `meta()` and with no children |

## Left out

- `print_tree` (src/uproot_browser/tree.py:167-175) and the module-level `Console()` (line 18) are left out. They open a file and print to the terminal.
- `src/uproot_browser/header.py` is not part of this model. It is a UI widget with a clock and timers.
- Rich's rendering is not modelled:
  - `Text.assemble` becomes a list of (text, style) pieces.
  - `Text.from_markup` becomes the markup string, without parsing the markup.
  - A `Display` node records the keyword arguments it was made with. It does not record the effective style that rich derives, such as a child without `guide_style` inheriting its parent's.
- `escape`, `str(Path(p))`, `Path(p).name` and the `:g` number format are opaque functions passed in as `Labels.Host`.
- The choice of cycle that uproot returns for a stripped name is not modelled, and neither is how it looks names up. Each container holds a map from stripped name to object. A name that is missing from the map is the lookup failure.
- The container's keys are uproot's `keys()` listing, taken as given. This includes any nested names that uproot's recursive listing produces.
- The lookup failure is `Items.KeyNotFound` carrying the name. uproot's exception type and message are not modelled.
- `singledispatch` and `isinstance` are replaced by a match on the closed `Obj` datatype.
  - An object that is both a directory and something else cannot be expressed.
  - A branch's interpretation is reduced to the flag "is `AsJagged`".
  - A histogram's axes are reduced to their lengths.
- `getattr` on an arbitrary object is modelled as the optional `name` and `classname` of the fallback case. Attribute lookups that raise are not modelled.
- Trees.MakeTree: the in-place build is not modelled.
  - The source attaches each node to its parent (`tree.add`) before walking the children.
  - The method instead assembles each node's value after its children are built, and returns `Err` instead of raising.
  - Either way a failed lookup ends the whole build, and the partial rich tree is not observable.
- The entry count is an unbounded integer, and the axis lengths are unbounded naturals.
