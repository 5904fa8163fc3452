/**
 * `process_item` and its four registered specialisations: the label and the
 * optional guide style of one tree node.
 */
module Labels {
  import opened Wrappers
  import opened Lex
  import opened UprootObjects

  /**
   * Library functions the labels are built with and that are not modelled:
   * rich's `escape`, `str(Path(p))`, `Path(p).name` and the `:g` format.
   */
  datatype Host = Host(
    escape: string -> string,
    pathText: string -> string,
    baseName: string -> string,
    formatG: int -> string)

  /** One piece of a `Text.assemble` call; `style` is "" for an unstyled piece. */
  datatype Span = Span(text: string, style: string)

  /** A rich `Text`, either assembled from pieces or built from a markup string. */
  datatype Text = Assembled(spans: seq<Span>) | Markup(markup: string)

  /** The keyword arguments handed to `Tree(...)` / `Tree.add(...)`: `label` and `guide_style`. */
  datatype NodeMeta = NodeMeta(nodeLabel: Text, guideStyle: Option<string>)

  const DirectoryGuide := "bold bright_blue"
  const TTreeGuide := "bold bright_green"
  const Separator := " × "

  /** The unregistered case: `❓`, the name or `<unnamed>` in bold, the class name in italics. */
  function ProcessOther(o: Obj): NodeMeta
    requires o.Other?
  {
    var name := o.otherName.GetOr("<unnamed>");
    var classname := o.otherClassname.GetOr(o.pythonClass);
    NodeMeta(Assembled([Span("❓ ", ""), Span(name + " ", "bold"), Span(classname, "italic")]), None)
  }

  /**
   * A file or TDirectory: a folder icon and a `file://` link. Inside the file the
   * link points at the first component of the in-file path, which is also shown.
   */
  function ProcessDirectory(h: Host, o: Obj): NodeMeta
    requires o.Directory?
  {
    var path := h.pathText(o.filePath);
    var pathName := if |o.path| > 0 then h.escape(o.path[0]) else h.escape(h.baseName(o.filePath));
    var linkText := if |o.path| > 0 then "file://" + path + ":/" + pathName else "file://" + path;
    NodeMeta(Markup(":file_folder: [link " + linkText + "]" + pathName), Some(DirectoryGuide))
  }

  /** A TTree: palm icon, bold name and the `:g`-formatted entry count. */
  function ProcessTTree(h: Host, o: Obj): NodeMeta
    requires o.TTree?
  {
    NodeMeta(Assembled([Span("🌴 ", ""), Span(o.name + " ", "bold"),
                        Span("(" + h.formatG(o.numEntries) + ")", "")]), Some(TTreeGuide))
  }

  /** A branch: a leaf icon telling jagged from fixed-size, bold name, italic type name. */
  function ProcessBranch(o: Obj): NodeMeta
    requires o.Branch?
  {
    var icon := if o.jagged then "🍃 " else "🍁 ";
    NodeMeta(Assembled([Span(icon, ""), Span(o.name + " ", "bold"), Span(o.typename, "italic")]), None)
  }

  /** `" × ".join(f"{len(ax)}" for ax in axes)` */
  function JoinSizes(lens: seq<nat>): string
  {
    if |lens| == 0 then ""
    else if |lens| == 1 then Decimal(lens[0])
    else Decimal(lens[0]) + Separator + JoinSizes(lens[1..])
  }

  /** A histogram: bar icon for a plain counting histogram, else a line icon; sizes per axis. */
  function ProcessHistogram(o: Obj): NodeMeta
    requires o.Histogram?
  {
    var icon := if o.kind == "COUNT" then "📊 " else "📈 ";
    NodeMeta(Assembled([Span(icon, ""), Span(o.name + " ", "bold"), Span(o.classname + " ", "italic"),
                        Span("(" + JoinSizes(o.axisLens) + ")", "")]), None)
  }

  /** `process_item`: dispatch on the object's kind, with the fallback for anything unregistered. */
  function ProcessItem(h: Host, o: Obj): (m: NodeMeta)
    ensures m.guideStyle.Some? <==> o.Directory? || o.TTree?
    ensures o.Directory? ==> m.guideStyle == Some(DirectoryGuide)
    ensures o.TTree? ==> m.guideStyle == Some(TTreeGuide)
    ensures m.nodeLabel.Markup? <==> o.Directory?
  {
    match o
    case Directory(_, _, _, _) => ProcessDirectory(h, o)
    case TTree(_, _, _, _) => ProcessTTree(h, o)
    case Branch(_, _, _) => ProcessBranch(o)
    case Histogram(_, _, _, _) => ProcessHistogram(o)
    case Other(_, _, _) => ProcessOther(o)
  }

  /** Any other object is labelled too: `❓`, its name or `<unnamed>`, its class name, no guide style. */
  lemma FallbackLabel(h: Host, o: Obj)
    requires o.Other?
    ensures ProcessItem(h, o).guideStyle.None?
    ensures ProcessItem(h, o).nodeLabel.Assembled? && |ProcessItem(h, o).nodeLabel.spans| == 3
    ensures ProcessItem(h, o).nodeLabel.spans[0] == Span("❓ ", "")
    ensures o.otherName.Some? ==> ProcessItem(h, o).nodeLabel.spans[1] == Span(o.otherName.value + " ", "bold")
    ensures o.otherName.None? ==> ProcessItem(h, o).nodeLabel.spans[1] == Span("<unnamed> ", "bold")
    ensures o.otherClassname.Some? ==> ProcessItem(h, o).nodeLabel.spans[2] == Span(o.otherClassname.value, "italic")
    ensures o.otherClassname.None? ==> ProcessItem(h, o).nodeLabel.spans[2] == Span(o.pythonClass, "italic")
  {
  }

  /**
   * A directory's label links to `file://<path>:/<first in-file component>` and
   * shows that component; the file itself links to `file://<path>` and shows the
   * file's base name.
   */
  lemma DirectoryLabel(h: Host, o: Obj)
    requires o.Directory?
    ensures ProcessItem(h, o).nodeLabel.Markup?
    ensures |o.path| > 0 ==>
      ProcessItem(h, o).nodeLabel.markup == ":file_folder: [link file://" + h.pathText(o.filePath) + ":/"
                                            + h.escape(o.path[0]) + "]" + h.escape(o.path[0])
    ensures |o.path| == 0 ==>
      ProcessItem(h, o).nodeLabel.markup == ":file_folder: [link file://" + h.pathText(o.filePath) + "]"
                                            + h.escape(h.baseName(o.filePath))
  {
  }

  /** A TTree shows the palm icon, its name in bold and its entry count in parentheses. */
  lemma TTreeLabel(h: Host, o: Obj)
    requires o.TTree?
    ensures ProcessItem(h, o).nodeLabel.Assembled? && |ProcessItem(h, o).nodeLabel.spans| == 3
    ensures ProcessItem(h, o).guideStyle == Some(TTreeGuide)
    ensures ProcessItem(h, o).nodeLabel.spans[0].text == "🌴 "
    ensures ProcessItem(h, o).nodeLabel.spans[1] == Span(o.name + " ", "bold")
    ensures ProcessItem(h, o).nodeLabel.spans[2] == Span("(" + h.formatG(o.numEntries) + ")", "")
  {
  }

  /** A branch gets the fallen-leaf icon exactly when it is jagged, the maple leaf otherwise. */
  lemma BranchLabel(h: Host, o: Obj)
    requires o.Branch?
    ensures ProcessItem(h, o).guideStyle.None?
    ensures ProcessItem(h, o).nodeLabel.Assembled? && |ProcessItem(h, o).nodeLabel.spans| == 3
    ensures ProcessItem(h, o).nodeLabel.spans[0].text == "🍃 " <==> o.jagged
    ensures ProcessItem(h, o).nodeLabel.spans[0].text == "🍁 " <==> !o.jagged
    ensures ProcessItem(h, o).nodeLabel.spans[2] == Span(o.typename, "italic")
  {
  }

  /**
   * A histogram gets the bar-chart icon exactly when its kind is `COUNT`, and its
   * size summary, inside the parentheses, reads back as its axis lengths.
   */
  lemma HistogramLabel(h: Host, o: Obj)
    requires o.Histogram?
    ensures ProcessItem(h, o).guideStyle.None?
    ensures ProcessItem(h, o).nodeLabel.Assembled? && |ProcessItem(h, o).nodeLabel.spans| == 4
    ensures ProcessItem(h, o).nodeLabel.spans[0].text == "📊 " <==> o.kind == "COUNT"
    ensures ProcessItem(h, o).nodeLabel.spans[0].text == "📈 " <==> o.kind != "COUNT"
    ensures ProcessItem(h, o).nodeLabel.spans[2] == Span(o.classname + " ", "italic")
    ensures
      var size := ProcessItem(h, o).nodeLabel.spans[3].text;
      && |size| >= 2 && size[0] == '(' && size[|size| - 1] == ')'
      && ParseSizes(size[1..|size| - 1]) == o.axisLens
  {
    var size := "(" + JoinSizes(o.axisLens) + ")";
    assert size[1..|size| - 1] == JoinSizes(o.axisLens);
    JoinSizesRoundTrip(o.axisLens);
  }

  /** The name every assembled label shows in bold. */
  function DisplayName(o: Obj): string
    requires !o.Directory?
  {
    if o.Other? then o.otherName.GetOr("<unnamed>") else o.name
  }

  /** Every label other than a directory's starts with an icon followed by the bold name. */
  lemma AssembledLabelShowsName(h: Host, o: Obj)
    requires !o.Directory?
    ensures ProcessItem(h, o).nodeLabel.Assembled?
    ensures |ProcessItem(h, o).nodeLabel.spans| >= 3
    ensures ProcessItem(h, o).nodeLabel.spans[1] == Span(DisplayName(o) + " ", "bold")
    ensures ProcessItem(h, o).nodeLabel.spans[0].style == ""
  {
  }

  /** The icon tells the kind apart: two assembled labels with the same icon come from the same kind. */
  lemma IconDeterminesKind(h: Host, o1: Obj, o2: Obj)
    requires !o1.Directory? && !o2.Directory?
    requires ProcessItem(h, o1).nodeLabel.spans[0] == ProcessItem(h, o2).nodeLabel.spans[0]
    ensures o1.TTree? <==> o2.TTree?
    ensures o1.Other? <==> o2.Other?
    ensures o1.Branch? <==> o2.Branch?
    ensures o1.Branch? ==> o1.jagged == o2.jagged
    ensures o1.Histogram? <==> o2.Histogram?
    ensures o1.Histogram? ==> (o1.kind == "COUNT" <==> o2.kind == "COUNT")
  {
  }

  /** Occurrences of `c` in `s`. */
  function Count(c: char, s: string): nat
  {
    if s == [] then 0 else (if s[0] == c then 1 else 0) + Count(c, s[1..])
  }

  lemma {:induction false} CountAppend(c: char, s: string, t: string)
    ensures Count(c, s + t) == Count(c, s) + Count(c, t)
  {
    if s != [] {
      assert (s + t)[1..] == s[1..] + t;
      CountAppend(c, s[1..], t);
    } else {
      assert s + t == t;
    }
  }

  lemma {:induction false} CountDigits(c: char, s: string)
    requires !IsDigit(c)
    requires forall i :: 0 <= i < |s| ==> IsDigit(s[i])
    ensures Count(c, s) == 0
  {
    if s != [] {
      CountDigits(c, s[1..]);
    }
  }

  /** n axes are joined with exactly n - 1 multiplication signs. */
  lemma {:induction false} JoinSizesSeparators(lens: seq<nat>)
    ensures Count('×', JoinSizes(lens)) == if |lens| == 0 then 0 else |lens| - 1
  {
    if |lens| > 0 {
      CountDigits('×', Decimal(lens[0]));
      if |lens| > 1 {
        JoinSizesSeparators(lens[1..]);
        CountAppend('×', Decimal(lens[0]), Separator);
        CountAppend('×', Decimal(lens[0]) + Separator, JoinSizes(lens[1..]));
      }
    }
  }

  /** The longest prefix of decimal digits. */
  function DigitRun(s: string): (d: string)
    ensures |d| <= |s| && d == s[..|d|]
    ensures forall i :: 0 <= i < |d| ==> IsDigit(d[i])
    ensures |d| < |s| ==> !IsDigit(s[|d|])
  {
    if s == [] || !IsDigit(s[0]) then [] else [s[0]] + DigitRun(s[1..])
  }

  /** Reads a size summary back into axis lengths: the inverse of `JoinSizes`. */
  function ParseSizes(s: string): seq<nat>
    decreases |s|
  {
    var d := DigitRun(s);
    var rest := s[|d|..];
    if d == [] then []
    else if |rest| >= |Separator| && rest[..|Separator|] == Separator then
      [ParseDecimal(d)] + ParseSizes(rest[|Separator|..])
    else [ParseDecimal(d)]
  }

  lemma {:induction false} DigitRunOf(d: string, t: string)
    requires forall i :: 0 <= i < |d| ==> IsDigit(d[i])
    requires t == [] || !IsDigit(t[0])
    ensures DigitRun(d + t) == d
  {
    if d != [] {
      assert (d + t)[1..] == d[1..] + t;
      DigitRunOf(d[1..], t);
    }
  }

  lemma {:induction false} JoinSizesRoundTrip(lens: seq<nat>)
    ensures ParseSizes(JoinSizes(lens)) == lens
  {
    if |lens| == 1 {
      DigitRunOf(Decimal(lens[0]), []);
      assert Decimal(lens[0]) + [] == Decimal(lens[0]);
      DecimalRoundTrip(lens[0]);
    } else if |lens| > 1 {
      var d := Decimal(lens[0]);
      var tail := JoinSizes(lens[1..]);
      assert JoinSizes(lens) == d + (Separator + tail);
      DigitRunOf(d, Separator + tail);
      assert (d + (Separator + tail))[|d|..] == Separator + tail;
      assert (Separator + tail)[|Separator|..] == tail;
      DecimalRoundTrip(lens[0]);
      JoinSizesRoundTrip(lens[1..]);
    }
  }
}
