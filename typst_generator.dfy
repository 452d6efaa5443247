/** The Typst generator: configuration, the page strategy, the clamped
    page-relative geometry of absolutely placed elements, the spatial
    grouping helpers, the element renderers in their plain, positioned and
    absolute forms, and the assembly of pages into the main content.

    Numbers are written into the markup by `fmt`, which stands for Python's
    formatting of a float (after its `round`). */
module TypstGenerator {
  import opened Text
  import opened Seqs
  import opened Models
  import opened LayoutAnalyzer
  import opened TypstText

  // ---------------------------------------------------------------- config

  /** The configuration keys the renderers read. */
  datatype Config = Config(fontFamily: string, tableStroke: string, tableFill: string,
                           imageWidth: string, imageAlignment: string,
                           preserveLayout: bool, usePrecisePositioning: bool, detectColumns: bool)

  /** The configuration a caller passes: a key is either given or absent. */
  datatype Overrides = Overrides(fontFamily: Option<string>, tableStroke: Option<string>,
                                 tableFill: Option<string>, imageWidth: Option<string>,
                                 imageAlignment: Option<string>, preserveLayout: Option<bool>,
                                 usePrecisePositioning: Option<bool>, detectColumns: Option<bool>)

  const NoOverrides: Overrides := Overrides(None, None, None, None, None, None, None, None)

  const DefaultConfig: Config :=
    Config("Times New Roman", "0.5pt", "none", "80%", "center", true, true, true)

  function Given<T>(o: Option<T>, default: T): T
  {
    if o.Some? then o.value else default
  }

  /** `_setup_config`: every absent key takes its default, every given key
      keeps the caller's value. */
  function SetupConfig(o: Overrides): (c: Config)
    ensures o == NoOverrides ==> c == DefaultConfig
    ensures o.fontFamily.Some? ==> c.fontFamily == o.fontFamily.value
    ensures o.tableStroke.Some? ==> c.tableStroke == o.tableStroke.value
    ensures o.tableFill.Some? ==> c.tableFill == o.tableFill.value
    ensures o.imageWidth.Some? ==> c.imageWidth == o.imageWidth.value
    ensures o.imageAlignment.Some? ==> c.imageAlignment == o.imageAlignment.value
    ensures o.preserveLayout.Some? ==> c.preserveLayout == o.preserveLayout.value
    ensures o.usePrecisePositioning.Some? ==> c.usePrecisePositioning == o.usePrecisePositioning.value
    ensures o.detectColumns.Some? ==> c.detectColumns == o.detectColumns.value
  {
    Config(Given(o.fontFamily, DefaultConfig.fontFamily),
           Given(o.tableStroke, DefaultConfig.tableStroke),
           Given(o.tableFill, DefaultConfig.tableFill),
           Given(o.imageWidth, DefaultConfig.imageWidth),
           Given(o.imageAlignment, DefaultConfig.imageAlignment),
           Given(o.preserveLayout, DefaultConfig.preserveLayout),
           Given(o.usePrecisePositioning, DefaultConfig.usePrecisePositioning),
           Given(o.detectColumns, DefaultConfig.detectColumns))
  }

  // -------------------------------------------------------------- strategy

  datatype Strategy = AbsoluteStrategy | MultiColumnStrategy | SingleColumnStrategy

  function OfType(t: RegionType): LayoutRegion -> bool
  {
    (r: LayoutRegion) => r.regionType == t
  }

  predicate HasRegionOfType(layout: PageLayout, t: RegionType)
  {
    exists i :: 0 <= i < |layout.regions| && layout.regions[i].regionType == t
  }

  /** The choice `_generate_page_with_layout` makes: absolute placement iff
      the page has an absolute region and precise positioning is on; else
      columns iff there is more than one column and column detection is on;
      else a single column. */
  function PageStrategy(layout: PageLayout, cfg: Config): (s: Strategy)
    ensures s == AbsoluteStrategy <==> HasRegionOfType(layout, AbsoluteRegion) && cfg.usePrecisePositioning
    ensures s == MultiColumnStrategy <==>
              !(HasRegionOfType(layout, AbsoluteRegion) && cfg.usePrecisePositioning)
              && layout.columnCount > 1 && cfg.detectColumns
  {
    var absolute := Filter(layout.regions, OfType(AbsoluteRegion));
    FilterMembers(layout.regions, OfType(AbsoluteRegion));
    assert absolute != [] <==> HasRegionOfType(layout, AbsoluteRegion) by {
      if absolute != [] {
        assert OfType(AbsoluteRegion)(absolute[0]);
        var i :| 0 <= i < |layout.regions| && layout.regions[i] == absolute[0];
      }
      if HasRegionOfType(layout, AbsoluteRegion) {
        var i :| 0 <= i < |layout.regions| && layout.regions[i].regionType == AbsoluteRegion;
        assert OfType(AbsoluteRegion)(layout.regions[i]);
      }
    }
    if absolute != [] && cfg.usePrecisePositioning then AbsoluteStrategy
    else if layout.columnCount > 1 && cfg.detectColumns then MultiColumnStrategy
    else SingleColumnStrategy
  }

  /** Under the default configuration every analyzed page with elements is
      placed absolutely, and a page without elements takes the single-column
      path. */
  lemma AnalyzedPagesRenderAbsolutely(d: ParsedDocument, p: int)
    ensures PageStrategy(AnalyzedLayout(d, p), DefaultConfig) == AbsoluteStrategy
            <==> CollectAllElements(GetElementsByPage(d, p)) != []
    ensures CollectAllElements(GetElementsByPage(d, p)) == [] ==>
              PageStrategy(AnalyzedLayout(d, p), DefaultConfig) == SingleColumnStrategy
  {
    var layout := AnalyzedLayout(d, p);
    if layout.regions != [] {
      assert layout.regions[0].regionType == AbsoluteRegion;
    }
  }

  // -------------------------------------------------------------- position

  /** The page margin the absolute geometry measures from (10mm). */
  const MarginPt: real := 28.35

  function MaxR(a: real, b: real): real { if a >= b then a else b }
  function MinR(a: real, b: real): real { if a <= b then a else b }

  function ClampR(lo: real, hi: real, x: real): real
    requires lo <= hi
  {
    if x < lo then lo else if x > hi then hi else x
  }

  /** Percentages of the page's content area (the page less the margin on
      every side), all unrounded. */
  datatype Position = Position(left: real, top: real, width: real, height: real)

  /** A page whose content area has non-zero width and height. */
  predicate HasContentArea(layout: PageLayout)
  {
    layout.pageWidth != 2.0 * MarginPt && layout.pageHeight != 2.0 * MarginPt
  }

  /** The box in percent of the content area before any clamp: the left and
      top edges (the top measured down from the page top, both first kept on
      the page) less the margin, at least 0; width and height as they are. */
  function RawPosition(b: BoundingBox, layout: PageLayout): Position
    requires HasContentArea(layout)
  {
    var w, h := layout.pageWidth, layout.pageHeight;
    var topPt := MaxR(0.0, MinR(h - b.y1, h));
    var leftPt := MaxR(0.0, MinR(b.x0, w));
    var cw := w - 2.0 * MarginPt;
    var ch := h - 2.0 * MarginPt;
    Position(MaxR(0.0, (leftPt - MarginPt) / cw * 100.0), MaxR(0.0, (topPt - MarginPt) / ch * 100.0),
             b.Width() / cw * 100.0, b.Height() / ch * 100.0)
  }

  /** A position already inside every bound the clamps enforce. */
  predicate WithinBounds(p: Position)
  {
    && 0.0 <= p.left <= 90.0 && 0.0 <= p.top <= 95.0
    && 10.0 <= p.width <= 80.0 && 5.0 <= p.height <= 60.0
    && p.left + p.width <= 100.0 && p.top + p.height <= 100.0
  }

  /** The clamped geometry: whatever the box, the element starts inside the
      content area, is neither tiny nor huge, and does not run past the right
      or bottom edge; a raw position already within those bounds is kept. */
  function AbsolutePosition(b: BoundingBox, layout: PageLayout): (p: Position)
    requires HasContentArea(layout)
    ensures WithinBounds(p)
    ensures WithinBounds(RawPosition(b, layout)) ==> p == RawPosition(b, layout)
  {
    var raw := RawPosition(b, layout);
    Position(MinR(raw.left, 90.0), MinR(raw.top, 95.0),
             ClampR(10.0, 80.0, if raw.left + raw.width > 100.0 then 100.0 - raw.left else raw.width),
             ClampR(5.0, 60.0, if raw.top + raw.height > 100.0 then 100.0 - raw.top else raw.height))
  }

  /** `_calculate_absolute_position`: the clamps applied one after another
      to local variables. */
  method CalculateAbsolutePosition(b: BoundingBox, layout: PageLayout) returns (pos: Position)
    requires HasContentArea(layout)
    ensures pos == AbsolutePosition(b, layout)
  {
    var topPt := layout.pageHeight - b.y1;
    var leftPt := b.x0;
    var widthPt := b.Width();
    var heightPt := b.Height();
    topPt := MaxR(0.0, MinR(topPt, layout.pageHeight));
    leftPt := MaxR(0.0, MinR(leftPt, layout.pageWidth));
    var contentWidth := layout.pageWidth - 2.0 * MarginPt;
    var contentHeight := layout.pageHeight - 2.0 * MarginPt;
    var adjustedLeft := leftPt - MarginPt;
    var adjustedTop := topPt - MarginPt;
    var leftRel := MaxR(0.0, adjustedLeft / contentWidth * 100.0);
    var topRel := MaxR(0.0, adjustedTop / contentHeight * 100.0);
    var widthRel := widthPt / contentWidth * 100.0;
    var heightRel := heightPt / contentHeight * 100.0;
    if leftRel + widthRel > 100.0 {
      widthRel := MaxR(10.0, 100.0 - leftRel);
    }
    if topRel + heightRel > 100.0 {
      heightRel := MaxR(5.0, 100.0 - topRel);
    }
    if topRel > 95.0 {
      topRel := 95.0;
    }
    if leftRel > 90.0 {
      leftRel := 90.0;
    }
    widthRel := MinR(widthRel, 80.0);
    heightRel := MinR(heightRel, 60.0);
    widthRel := MaxR(widthRel, 10.0);
    heightRel := MaxR(heightRel, 5.0);
    pos := Position(leftRel, topRel, widthRel, heightRel);
  }

  // -------------------------------------------------------------- grouping

  /** `_bboxes_overlap`: the boxes overlap on both axes, edges excluded. */
  predicate BboxesOverlap(a: BoundingBox, b: BoundingBox)
  {
    !(a.x1 <= b.x0 || b.x1 <= a.x0) && !(a.y1 <= b.y0 || b.y1 <= a.y0)
  }

  predicate StrictlyInside(b: BoundingBox, x: real, y: real)
  {
    b.x0 < x < b.x1 && b.y0 < y < b.y1
  }

  /** Two boxes of positive width and height overlap exactly when some
      point lies strictly inside both; so the test is symmetric and boxes
      that only share an edge do not overlap. */
  lemma BboxesOverlapMeaning(a: BoundingBox, b: BoundingBox)
    requires a.x0 < a.x1 && a.y0 < a.y1 && b.x0 < b.x1 && b.y0 < b.y1
    ensures BboxesOverlap(a, b) <==> exists x, y :: StrictlyInside(a, x, y) && StrictlyInside(b, x, y)
    ensures BboxesOverlap(a, b) == BboxesOverlap(b, a)
    ensures a.x1 == b.x0 || a.y1 == b.y0 ==> !BboxesOverlap(a, b)
  {
    if BboxesOverlap(a, b) {
      var xlo, xhi := MaxR(a.x0, b.x0), MinR(a.x1, b.x1);
      var ylo, yhi := MaxR(a.y0, b.y0), MinR(a.y1, b.y1);
      assert xlo < xhi && ylo < yhi;
      var x := (xlo + xhi) / 2.0;
      var y := (ylo + yhi) / 2.0;
      assert xlo < x < xhi && ylo < y < yhi;
      assert StrictlyInside(a, x, y) && StrictlyInside(b, x, y);
    }
  }

  /** The gap between two intervals, 0 when they meet. */
  function Gap(lo1: real, hi1: real, lo2: real, hi2: real): real
  {
    MaxR(0.0, MaxR(lo1 - hi2, lo2 - hi1))
  }

  /** The distance under which an image and text conflict (20pt). */
  const ConflictDistance: real := 20.0

  /** The squared distance between the nearest points of two boxes. */
  function SquaredDistance(a: BoundingBox, b: BoundingBox): real
  {
    Gap(a.x0, a.x1, b.x0, b.x1) * Gap(a.x0, a.x1, b.x0, b.x1)
    + Gap(a.y0, a.y1, b.y0, b.y1) * Gap(a.y0, a.y1, b.y0, b.y1)
  }

  /** `_elements_too_close` at the 20pt threshold its one caller passes:
      the distance between the boxes is below it, compared squared so no
      square root is needed. */
  predicate TooClose(a: BoundingBox, b: BoundingBox)
  {
    SquaredDistance(a, b) < ConflictDistance * ConflictDistance
  }

  /** The squared comparison is the distance comparison: a gap on one axis
      of at least the threshold is never too close, boxes that overlap
      always are, and the test is symmetric. */
  lemma TooCloseMeaning(a: BoundingBox, b: BoundingBox)
    ensures Gap(a.x0, a.x1, b.x0, b.x1) >= ConflictDistance ==> !TooClose(a, b)
    ensures Gap(a.y0, a.y1, b.y0, b.y1) >= ConflictDistance ==> !TooClose(a, b)
    ensures BboxesOverlap(a, b) ==> TooClose(a, b)
    ensures TooClose(a, b) == TooClose(b, a)
  {
    var dx := Gap(a.x0, a.x1, b.x0, b.x1);
    var dy := Gap(a.y0, a.y1, b.y0, b.y1);
    SquareMonotone(0.0, dx);
    SquareMonotone(0.0, dy);
    if dx >= ConflictDistance {
      SquareMonotone(ConflictDistance, dx);
    }
    if dy >= ConflictDistance {
      SquareMonotone(ConflictDistance, dy);
    }
  }

  lemma SquareMonotone(t: real, x: real)
    requires 0.0 <= t <= x
    ensures t * t <= x * x
  {
    assert t * t <= t * x <= x * x;
  }

  /** `_elements_have_conflict`: an image next to a paragraph or heading
      (either way round) within 20pt. */
  predicate ElementsHaveConflict(e1: Element, e2: Element)
  {
    && ((e1.ImageEl? && IsTextElement(e2)) || (e2.ImageEl? && IsTextElement(e1)))
    && TooClose(e1.Box(), e2.Box())
  }

  predicate Clashes(e: Element, g: Element)
  {
    BboxesOverlap(e.Box(), g.Box()) || ElementsHaveConflict(e, g)
  }

  predicate ClashesWithGroup(group: seq<Element>, e: Element)
  {
    exists i :: 0 <= i < |group| && Clashes(e, group[i])
  }

  /** `_elements_overlap_or_conflict`: the new element overlaps or conflicts
      with some member of the group. */
  method ElementsOverlapOrConflict(group: seq<Element>, e: Element) returns (r: bool)
    ensures r <==> ClashesWithGroup(group, e)
  {
    for i := 0 to |group|
      invariant forall k :: 0 <= k < i ==> !Clashes(e, group[k])
    {
      if BboxesOverlap(e.Box(), group[i].Box()) {
        return true;
      }
      if ElementsHaveConflict(e, group[i]) {
        return true;
      }
    }
    return false;
  }

  // The grouping loop below is stated for any test of an element against
  // the open group; `_group_elements_by_spatial_relationship` uses
  // `ClashesWithGroup`.

  /** No element of the group fails the test against the elements before it. */
  predicate GroupFree<T>(g: seq<T>, clash: (seq<T>, T) -> bool)
  {
    forall i :: 0 < i < |g| ==> !clash(g[..i], g[i])
  }

  /** Closed groups: non-empty, free of clashes, and each one starting with
      an element that clashes with the group before it. */
  predicate GroupsWellFormed<T>(groups: seq<seq<T>>, clash: (seq<T>, T) -> bool)
  {
    && (forall j :: 0 <= j < |groups| ==> groups[j] != [] && GroupFree(groups[j], clash))
    && (forall j :: 0 < j < |groups| ==> clash(groups[j - 1], groups[j][0]))
  }

  /** The loop state after the elements `seen`: the closed groups and the
      open one hold them in order. */
  ghost predicate GroupingState<T>(groups: seq<seq<T>>, current: seq<T>, seen: seq<T>, clash: (seq<T>, T) -> bool)
  {
    && Flatten(groups) + current == seen
    && GroupsWellFormed(groups, clash) && GroupFree(current, clash)
    && (seen != [] <==> current != [])
    && (current != [] && groups != [] ==> clash(groups[|groups| - 1], current[0]))
  }

  lemma GroupsClose<T>(groups: seq<seq<T>>, current: seq<T>, clash: (seq<T>, T) -> bool)
    requires GroupsWellFormed(groups, clash) && current != [] && GroupFree(current, clash)
    requires groups != [] ==> clash(groups[|groups| - 1], current[0])
    ensures GroupsWellFormed(groups + [current], clash)
  {
  }

  /** The first element opens the first group. */
  lemma OpenFirst<T>(groups: seq<seq<T>>, seen: seq<T>, e: T, clash: (seq<T>, T) -> bool)
    requires GroupingState(groups, [], seen, clash)
    ensures GroupingState(groups, [e], seen + [e], clash)
  {
  }

  /** An element that clashes with the open group closes it and opens the
      next. */
  lemma CloseAndOpen<T>(groups: seq<seq<T>>, current: seq<T>, seen: seq<T>, e: T, clash: (seq<T>, T) -> bool)
    requires GroupingState(groups, current, seen, clash) && current != [] && clash(current, e)
    ensures GroupingState(groups + [current], [e], seen + [e], clash)
  {
    GroupsClose(groups, current, clash);
    FlattenAppend(groups, current);
  }

  /** An element that does not clash with the open group joins it. */
  lemma JoinOpen<T>(groups: seq<seq<T>>, current: seq<T>, seen: seq<T>, e: T, clash: (seq<T>, T) -> bool)
    requires GroupingState(groups, current, seen, clash) && current != [] && !clash(current, e)
    ensures GroupingState(groups, current + [e], seen + [e], clash)
  {
    var g := current + [e];
    forall i | 0 < i < |g| ensures !clash(g[..i], g[i]) {
      if i < |current| {
        assert g[..i] == current[..i] && g[i] == current[i];
      } else {
        assert g[..i] == current;
      }
    }
  }

  /** At the end the open group, if any, closes too. */
  lemma CloseLast<T>(groups: seq<seq<T>>, current: seq<T>, elements: seq<T>, clash: (seq<T>, T) -> bool)
    requires GroupingState(groups, current, elements, clash)
    ensures var all := if current != [] then groups + [current] else groups;
            Flatten(all) == elements && GroupsWellFormed(all, clash)
  {
    if current != [] {
      GroupsClose(groups, current, clash);
      FlattenAppend(groups, current);
    }
  }

  /** One iteration of the grouping loop: the element opens the first group,
      closes the open group when it clashes with it, or joins it. */
  method AddToGroups<T>(groups: seq<seq<T>>, current: seq<T>, ghost seen: seq<T>, e: T, clashes: bool,
                        ghost clash: (seq<T>, T) -> bool)
    returns (groups': seq<seq<T>>, current': seq<T>)
    requires GroupingState(groups, current, seen, clash)
    requires current != [] ==> clashes == clash(current, e)
    ensures GroupingState(groups', current', seen + [e], clash)
    ensures current == [] ==> groups' == groups && current' == [e]
    ensures current != [] && clashes ==> groups' == groups + [current] && current' == [e]
    ensures current != [] && !clashes ==> groups' == groups && current' == current + [e]
  {
    if current == [] {
      OpenFirst(groups, seen, e, clash);
      return groups, [e];
    }
    if clashes {
      CloseAndOpen(groups, current, seen, e, clash);
      groups', current' := groups + [current], [e];
    } else {
      JoinOpen(groups, current, seen, e, clash);
      groups', current' := groups, current + [e];
    }
  }

  /** `_group_elements_by_spatial_relationship`: consecutive elements stay in
      one group until an element overlaps or conflicts with a member of the
      open group, which then closes. */
  method GroupElementsBySpatialRelationship(elements: seq<Element>) returns (groups: seq<seq<Element>>)
    ensures Flatten(groups) == elements
    ensures GroupsWellFormed(groups, ClashesWithGroup)
  {
    groups := [];
    var current: seq<Element> := [];
    for i := 0 to |elements|
      invariant GroupingState(groups, current, elements[..i], ClashesWithGroup)
    {
      var clashes := false;
      if current != [] {
        clashes := ElementsOverlapOrConflict(current, elements[i]);
      }
      assert elements[..i + 1] == elements[..i] + [elements[i]];
      groups, current := AddToGroups(groups, current, elements[..i], elements[i], clashes, ClashesWithGroup);
    }
    assert elements[..|elements|] == elements;
    groups := CloseGroups(groups, current, elements, ClashesWithGroup);
  }

  /** After the loop: the open group, if any, is appended to the groups. */
  method CloseGroups<T>(groups: seq<seq<T>>, current: seq<T>, ghost elements: seq<T>,
                        ghost clash: (seq<T>, T) -> bool)
    returns (all: seq<seq<T>>)
    requires GroupingState(groups, current, elements, clash)
    ensures all == if current != [] then groups + [current] else groups
    ensures Flatten(all) == elements && GroupsWellFormed(all, clash)
  {
    CloseLast(groups, current, elements, clash);
    all := groups;
    if current != [] {
      all := groups + [current];
    }
  }

  function BoxOf(e: Element): BoundingBox { e.Box() }

  /** `_calculate_group_bbox`: no box for an empty group, otherwise the
      smallest box around every member. */
  function CalculateGroupBbox(group: seq<Element>): (r: Option<BoundingBox>)
    ensures r.None? <==> group == []
    ensures r.Some? ==> forall i :: 0 <= i < |group| ==> r.value.Contains(group[i].Box())
    ensures r.Some? ==> exists i :: 0 <= i < |group| && group[i].Box().x0 == r.value.x0
    ensures r.Some? ==> exists i :: 0 <= i < |group| && group[i].Box().x1 == r.value.x1
    ensures r.Some? ==> exists i :: 0 <= i < |group| && group[i].Box().y0 == r.value.y0
    ensures r.Some? ==> exists i :: 0 <= i < |group| && group[i].Box().y1 == r.value.y1
  {
    if group == [] then None
    else
      var boxes := Map(group, BoxOf);
      var b := UnionAll(boxes);
      assert forall i :: 0 <= i < |group| ==> boxes[i] == group[i].Box();
      Some(b)
  }

  // ------------------------------------------------------- plain renderers

  /** The number of '=' characters a line starts with. */
  function LeadingEquals(s: string): nat
  {
    RunLength(s, (c: char) => c == '=')
  }

  /** `_generate_heading`: the cleaned title after one '=' per level (the
      level kept within 1..6) and a space when it reads as a heading, the
      bare title when it does not. */
  function HeadingMarkup(h: Heading): string
  {
    var title := CleanHeadingText(h.text);
    if !IsValidHeading(title) then title else HeadingLine(h.level, title)
  }

  /** A heading line: one '=' per level, a space, the title. */
  function HeadingLine(level: int, title: string): string
  {
    Repeat("=", Clamp(1, 6, level)) + " " + title
  }

  /** A heading line reads back: it starts with as many '=' as the clamped
      level, then a space, then exactly the title. */
  lemma HeadingLineReadsBack(level: int, title: string)
    ensures var n := LeadingEquals(HeadingLine(level, title));
            && n == Clamp(1, 6, level)
            && HeadingLine(level, title)[n] == ' '
            && HeadingLine(level, title)[n + 1..] == title
  {
    var n := Clamp(1, 6, level);
    LeadingEqualsOfRepeat(n, " " + title);
    assert HeadingLine(level, title) == Repeat("=", n) + (" " + title);
  }

  lemma {:induction false} LeadingEqualsOfRepeat(n: nat, rest: string)
    requires rest != [] && rest[0] != '='
    ensures LeadingEquals(Repeat("=", n) + rest) == n
    ensures (Repeat("=", n) + rest)[n..] == rest
  {
    if n > 0 {
      LeadingEqualsOfRepeat(n - 1, rest);
      assert Repeat("=", n) + rest == "=" + (Repeat("=", n - 1) + rest);
      assert (Repeat("=", n) + rest)[1..] == Repeat("=", n - 1) + rest;
    } else {
      assert Repeat("=", n) + rest == rest;
    }
  }

  /** A stripped title containing "which" (one of the running-text
      phrases) is not a heading. */
  lemma PhraseIsNotHeading(title: string)
    requires IsStripped(title) && Contains(Lower(title), "which")
    ensures !IsValidHeading(title)
  {
    StrippedIsFixed(title);
    assert NonHeadingPhrases[7] == "which";
  }

  /** A text block with its markup characters escaped, then wrapped in '*'
      when bold and in '_' when italic (the bold mark inside). */
  function StyledText(b: TextBlock): string
  {
    var t := EscapeAsWritten(b.text);
    var bold := if b.IsBold() then "*" + t + "*" else t;
    if b.IsItalic() then "_" + bold + "_" else bold
  }

  /** The paragraph alignments that wrap the text in an `#align` block. */
  function AlignWrap(a: Alignment, text: string): string
  {
    match a
    case Center => "#align(center)[\n" + text + "\n]"
    case Right => "#align(right)[\n" + text + "\n]"
    case _ => text
  }

  /** `_generate_paragraph`, as a value. */
  function ParagraphMarkup(p: Paragraph): string
  {
    AlignWrap(p.alignment, SeparateMixedContent(Join(" ", Map(p.textBlocks, StyledText))))
  }

  /** `_generate_paragraph`: the styled blocks collected in a loop, joined
      by spaces, repaired, and aligned. */
  method GenerateParagraph(p: Paragraph) returns (s: string)
    ensures s == ParagraphMarkup(p)
  {
    var parts: seq<string> := [];
    for i := 0 to |p.textBlocks|
      invariant parts == Map(p.textBlocks[..i], StyledText)
    {
      var b := p.textBlocks[i];
      var text := StyleBlock(b);
      MapAppend(p.textBlocks[..i], [b], StyledText);
      assert p.textBlocks[..i + 1] == p.textBlocks[..i] + [b];
      parts := parts + [text];
    }
    assert p.textBlocks[..|p.textBlocks|] == p.textBlocks;
    var cleaned := SeparateMixedContent(Join(" ", parts));
    s := AlignWrap(p.alignment, cleaned);
  }

  /** One block of `_generate_paragraph`: escaped, then starred when bold
      and underscored when italic. */
  method StyleBlock(b: TextBlock) returns (text: string)
    ensures text == StyledText(b)
  {
    text := EscapeTypstText(b.text);
    if b.IsBold() {
      text := "*" + text + "*";
    }
    if b.IsItalic() {
      text := "_" + text + "_";
    }
  }

  /** Plain text: no character the escape table touches. */
  predicate IsPlain(s: string)
  {
    forall i :: 0 <= i < |s| ==> s[i] !in EscapedChars
  }

  /** For blocks of plain, unstyled text the paragraph markup is the repaired
      paragraph text (`Paragraph.text`) in its alignment wrapper. */
  lemma ParagraphMarkupOfPlainText(p: Paragraph)
    requires forall i :: 0 <= i < |p.textBlocks| ==>
               IsPlain(p.textBlocks[i].text) && !p.textBlocks[i].IsBold() && !p.textBlocks[i].IsItalic()
    ensures ParagraphMarkup(p) == AlignWrap(p.alignment, SeparateMixedContent(ParagraphText(p)))
  {
    var styled := Map(p.textBlocks, StyledText);
    forall i | 0 <= i < |p.textBlocks|
      ensures styled[i] == p.textBlocks[i].text
    {
      EscapePlainText(p.textBlocks[i].text, |EscapedChars|);
    }
    assert styled == BlockTexts(p.textBlocks);
  }

  /** A table cell's expression: its escaped text in brackets. */
  function CellExpr(text: string): string
  {
    "[" + EscapeAsWritten(text) + "]"
  }

  function RowExprs(row: seq<string>): seq<string>
  {
    Map(row, CellExpr)
  }

  /** The cell expressions of a grid, row after row. */
  function GridExprs(grid: seq<seq<string>>): seq<string>
  {
    Flatten(Map(grid, RowExprs))
  }

  /** The grid `to_2d_array` produces, as a value. */
  function TableGrid(t: Table): seq<seq<string>>
  {
    seq(Count(t.rows), r => seq(Count(t.cols), c => CellTextAt(t.cells, r, c)))
  }

  /** `_generate_table`, as a value: "" without cells, otherwise the column
      spec of `cols` "auto" entries, stroke and fill, and every grid cell. */
  function TableMarkup(t: Table, cfg: Config): string
  {
    if t.cells == [] then ""
    else
      "#table(\n  columns: (" + Join(", ", seq(Count(t.cols), _ => "auto")) + "),\n  stroke: "
      + cfg.tableStroke + ",\n  fill: " + cfg.tableFill + ",\n  "
      + Join(", ", GridExprs(TableGrid(t))) + ",\n)"
  }

  /** `_generate_table`: the grid's cells escaped and bracketed in a nested
      loop. */
  method GenerateTable(t: Table, cfg: Config) returns (s: string)
    ensures s == TableMarkup(t, cfg)
  {
    if t.cells == [] {
      return "";
    }
    var grid := To2DArray(t);
    GridIsTableGrid(t, grid);
    var cells: seq<string> := [];
    for r := 0 to |grid|
      invariant cells == GridExprs(grid[..r])
    {
      var rowCells := RowCells(grid[r]);
      GridExprsSnoc(grid, r);
      cells := cells + rowCells;
    }
    assert grid[..|grid|] == grid;
    var colSpec := Join(", ", seq(Count(t.cols), _ => "auto"));
    s := "#table(\n  columns: (" + colSpec + "),\n  stroke: " + cfg.tableStroke + ",\n  fill: "
         + cfg.tableFill + ",\n  " + Join(", ", cells) + ",\n)";
  }

  /** The inner loop of `_generate_table`: one row's cells escaped and
      bracketed. */
  method RowCells(row: seq<string>) returns (cells: seq<string>)
    ensures cells == RowExprs(row)
  {
    cells := [];
    for c := 0 to |row|
      invariant cells == Map(row[..c], CellExpr)
    {
      var escaped := EscapeTypstText(row[c]);
      MapSnoc(row, c, CellExpr);
      cells := cells + ["[" + escaped + "]"];
    }
    assert row[..|row|] == row;
  }

  /** The grid `to_2d_array` returns is the table's grid. */
  lemma GridIsTableGrid(t: Table, grid: seq<seq<string>>)
    requires |grid| == Count(t.rows)
    requires forall r :: 0 <= r < |grid| ==> |grid[r]| == Count(t.cols)
    requires forall r, c :: 0 <= r < |grid| && 0 <= c < |grid[r]| ==> grid[r][c] == CellTextAt(t.cells, r, c)
    ensures grid == TableGrid(t)
  {
    forall r | 0 <= r < |grid|
      ensures grid[r] == TableGrid(t)[r]
    {
    }
  }

  lemma GridExprsSnoc(grid: seq<seq<string>>, r: int)
    requires 0 <= r < |grid|
    ensures GridExprs(grid[..r + 1]) == GridExprs(grid[..r]) + RowExprs(grid[r])
  {
    MapSnoc(grid, r, RowExprs);
    FlattenAppend(Map(grid[..r], RowExprs), RowExprs(grid[r]));
  }

  /** The grid is complete: exactly rows x cols cell expressions, and cell
      (r, c) at index r * cols + c, holding the text `to_2d_array` leaves
      there ("" for a missing cell, so `[]`). */
  lemma TableGridCell(t: Table, r: int, c: int)
    requires 0 <= r < Count(t.rows) && 0 <= c < Count(t.cols)
    ensures |GridExprs(TableGrid(t))| == Count(t.rows) * Count(t.cols)
    ensures r * Count(t.cols) + c < |GridExprs(TableGrid(t))|
            && GridExprs(TableGrid(t))[r * Count(t.cols) + c] == CellExpr(CellTextAt(t.cells, r, c))
  {
    var grid := TableGrid(t);
    var rows := Map(grid, RowExprs);
    assert forall k :: 0 <= k < |rows| ==> |rows[k]| == Count(t.cols);
    FlattenLength(rows, Count(t.cols));
    FlattenAt(rows, Count(t.cols), r, c);
    assert rows[r][c] == CellExpr(grid[r][c]);
  }

  /** One list line: two spaces per level below the first, the ordered or
      unordered marker, and the item text without its original marker,
      escaped. */
  function ListLine(level: int, text: string, listType: ListType): string
  {
    Repeat("  ", level - 1) + ListMarker(listType) + EscapeAsWritten(CleanListItemText(text))
  }

  /** "+ " for an ordered list, "- " otherwise. */
  function ListMarker(listType: ListType): string
  {
    if listType == Ordered then "+ " else "- "
  }

  function ListLineOf(listType: ListType): ListItem -> string
  {
    (item: ListItem) => ListLine(item.level, item.text, listType)
  }

  /** `_generate_list`, as a value. */
  function ListMarkup(l: DocList): string
  {
    if l.items == [] then "" else Join("\n", Map(l.items, ListLineOf(l.listType)))
  }

  /** `_generate_list`: one line per item, collected in a loop. */
  method GenerateList(l: DocList) returns (s: string)
    ensures s == ListMarkup(l)
  {
    if l.items == [] {
      return "";
    }
    var lines: seq<string> := [];
    for i := 0 to |l.items|
      invariant lines == Map(l.items[..i], ListLineOf(l.listType))
    {
      var line := ListLine(l.items[i].level, l.items[i].text, l.listType);
      MapSnoc(l.items, i, ListLineOf(l.listType));
      lines := lines + [line];
    }
    assert l.items[..|l.items|] == l.items;
    s := Join("\n", lines);
  }

  /** The list markup has one line per item, in order: splitting it at line
      breaks gives back the items' lines, as long as no item text itself
      holds a line break. */
  lemma ListMarkupLines(l: DocList)
    requires l.items != []
    requires forall i :: 0 <= i < |l.items| ==> '\n' !in ListLine(l.items[i].level, l.items[i].text, l.listType)
    ensures Split(ListMarkup(l), '\n') == Map(l.items, ListLineOf(l.listType))
  {
    var lines := Map(l.items, ListLineOf(l.listType));
    forall k, i | 0 <= k < |lines| && 0 <= i < |lines[k]|
      ensures lines[k][i] != '\n'
    {
      assert lines[k][i] in ListLine(l.items[k].level, l.items[k].text, l.listType);
    }
    SplitJoin(lines, '\n');
  }

  /** The comment left in place of an image without a file. */
  function MissingImage(filename: string): string
  {
    "// 图像文件缺失: " + filename
  }

  /** The call that names an image file in the markup. */
  function ImageCall(path: string): string
  {
    "image(\"" + path + "\""
  }

  /** What follows the image call in a figure of the given width. */
  function FigureRest(width: string): string
  {
    ", width: " + width + "),\n  caption: []\n)"
  }

  function Figure(path: string, width: string): string
  {
    "#figure(\n  " + ImageCall(path) + FigureRest(width)
  }

  /** `_generate_image`: a comment without a path, otherwise a figure of the
      configured width, centered on its own lines when so configured. */
  function ImageMarkup(m: Image, path: string, cfg: Config): string
  {
    if path == "" then MissingImage(m.filename)
    else if cfg.imageAlignment == "center" then "#align(center)[\n" + Figure(path, cfg.imageWidth) + "\n]"
    else Figure(path, cfg.imageWidth)
  }

  /** `generate_table_only` and `generate_heading_only` render exactly as
      the document does; the element kinds' plain markup. */
  function PlainMarkup(e: Element, path: string, cfg: Config): string
  {
    match e
    case HeadingEl(h) => HeadingMarkup(h)
    case ParagraphEl(p) => ParagraphMarkup(p)
    case TableEl(t) => TableMarkup(t, cfg)
    case ImageEl(m) => ImageMarkup(m, path, cfg)
    case ListEl(l) => ListMarkup(l)
  }

  /** The dispatch on the element kind in the simple page renderer. */
  method RenderPlain(e: Element, path: string, cfg: Config) returns (s: string)
    ensures s == PlainMarkup(e, path, cfg)
  {
    match e
    case HeadingEl(h) => s := HeadingMarkup(h);
    case ParagraphEl(p) => s := GenerateParagraph(p);
    case TableEl(t) => s := GenerateTable(t, cfg);
    case ImageEl(m) => s := ImageMarkup(m, path, cfg);
    case ListEl(l) => s := GenerateList(l);
  }

  // -------------------------------------------------- positioned renderers

  /** How a positioned renderer wraps an element's plain markup. */
  datatype Placement = AsIs | AlignRight | AlignCenter | PadLeft(em: real)

  /** Left (0), centred (1) or right (2); an indent counts as left. */
  function Rank(p: Placement): int
  {
    match p
    case AlignCenter => 1
    case AlignRight => 2
    case _ => 0
  }

  /** The heading alignment: right of 75% of the page aligns right, strictly
      between 25% and 75% centres, everything else stays as it is. */
  function HeadingPlacement(relX: real): (p: Placement)
    ensures p == AlignRight <==> relX > 75.0
    ensures p == AlignCenter <==> 25.0 < relX < 75.0
    ensures p == AsIs <==> relX <= 25.0 || relX == 75.0
  {
    if relX > 75.0 then AlignRight else if 25.0 < relX < 75.0 then AlignCenter else AsIs
  }

  /** The table alignment: right of 60% aligns right; the centring test
      (between 20% and 80%) comes second, so it centres up to 60% only. */
  function TablePlacement(relX: real): (p: Placement)
    ensures p == AlignRight <==> relX > 60.0
    ensures p == AlignCenter <==> 20.0 < relX <= 60.0
    ensures p == AsIs <==> relX <= 20.0
  {
    if relX > 60.0 then AlignRight else if 20.0 < relX < 80.0 then AlignCenter else AsIs
  }

  /** The image alignment under precise positioning: right of 70% aligns
      right, and the centring test (between 20% and 80%) centres up to 70%. */
  function ImagePlacement(relX: real): (p: Placement)
    ensures p == AlignRight <==> relX > 70.0
    ensures p == AlignCenter <==> 20.0 < relX <= 70.0
    ensures p == AsIs <==> relX <= 20.0
  {
    if relX > 70.0 then AlignRight else if 20.0 < relX < 80.0 then AlignCenter else AsIs
  }

  /** Paragraphs and lists right of 10% of the page are padded on the left
      by a tenth of their offset, in em. */
  function IndentPlacement(relX: real): (p: Placement)
    ensures p.PadLeft? <==> relX > 10.0
    ensures p.PadLeft? ==> p.em * 10.0 == relX
    ensures !p.PadLeft? ==> p == AsIs
  {
    if relX > 10.0 then PadLeft(relX / 10.0) else AsIs
  }

  /** Further right never aligns further left for tables and images; for
      headings this holds except at exactly 75%, which falls back to the
      left between a centred 74% and a right-aligned 76%. */
  lemma PlacementMonotone(x: real, y: real)
    requires x <= y
    ensures Rank(TablePlacement(x)) <= Rank(TablePlacement(y))
    ensures Rank(ImagePlacement(x)) <= Rank(ImagePlacement(y))
    ensures y != 75.0 ==> Rank(HeadingPlacement(x)) <= Rank(HeadingPlacement(y))
    ensures Rank(HeadingPlacement(74.0)) > Rank(HeadingPlacement(75.0)) && Rank(HeadingPlacement(75.0)) < Rank(HeadingPlacement(76.0))
  {
  }

  /** The placement each element kind uses. */
  function ElementPlacement(e: Element, relX: real): Placement
  {
    match e
    case HeadingEl(_) => HeadingPlacement(relX)
    case TableEl(_) => TablePlacement(relX)
    case ImageEl(_) => ImagePlacement(relX)
    case _ => IndentPlacement(relX)
  }

  /** The wrapper a placement puts around markup; the indent is written by
      `fmt`. */
  function Wrap(p: Placement, base: string, fmt: real -> string): string
  {
    match p
    case AsIs => base
    case AlignRight => "#align(right)[" + base + "]"
    case AlignCenter => "#align(center)[" + base + "]"
    case PadLeft(em) => "#pad(left: " + fmt(em) + "em)[" + base + "]"
  }

  /** Every wrapper keeps the markup it wraps intact. */
  lemma WrapKeepsBase(p: Placement, base: string, fmt: real -> string)
    ensures Contains(Wrap(p, base, fmt), base)
  {
    match p
    case AsIs =>
      ContainsInfix([], base, []);
      assert [] + base + [] == base;
    case AlignRight => ContainsInfix("#align(right)[", base, "]");
    case AlignCenter => ContainsInfix("#align(center)[", base, "]");
    case PadLeft(em) => ContainsInfix("#pad(left: " + fmt(em) + "em)[", base, "]");
  }

  /** The path `_find_image_path` finds for an image; other elements need
      none. */
  function PathFor(e: Element, paths: seq<string>): string
  {
    if e.ImageEl? then FirstContaining(paths, e.image.filename) else ""
  }

  /** The `*_with_position` renderers, given the element's plain markup
      `base` and its precise position `q`. Without precise positioning the
      other kinds keep their plain markup; with it, each is wrapped by the
      placement of its page-relative left edge. An image without a path is
      the missing-file comment; with one, its width is its page-relative
      width (at most 100%) under precise positioning and the configured width
      otherwise. A missing position stands for the division by a zero page
      side, which the image renderer reaches whatever the configuration. */
  function Positioned(e: Element, base: string, path: string, q: Option<PrecisePosition>, cfg: Config,
                      fmt: real -> string): (r: Option<string>)
    ensures r.None? <==> q.None? && (if e.ImageEl? then path != "" else cfg.usePrecisePositioning)
  {
    match e
    case ImageEl(m) =>
      if path == "" then Some(MissingImage(m.filename))
      else if q.None? then None
      else if cfg.usePrecisePositioning then
        Some(Wrap(ImagePlacement(q.value.relX), Figure(path, fmt(MinR(q.value.relWidth, 100.0)) + "%"), fmt))
      else if cfg.imageAlignment == "center" then Some(Wrap(AlignCenter, Figure(path, cfg.imageWidth), fmt))
      else Some(Figure(path, cfg.imageWidth))
    case _ =>
      if !cfg.usePrecisePositioning then Some(base)
      else if q.None? then None
      else Some(Wrap(ElementPlacement(e, q.value.relX), base, fmt))
  }

  /** An element rendered with its position on the page; `None` when a page
      side is zero and the renderer asks for the position. */
  function PositionedMarkup(e: Element, path: string, layout: PageLayout, cfg: Config,
                            fmt: real -> string): (r: Option<string>)
    ensures r.None? <==> (layout.pageWidth == 0.0 || layout.pageHeight == 0.0)
                         && (if e.ImageEl? then path != "" else cfg.usePrecisePositioning)
  {
    Positioned(e, PlainMarkup(e, path, cfg), path, GetElementPrecisePosition(e, layout), cfg, fmt)
  }

  /** A positioned heading, paragraph, table or list holds its plain markup
      intact, and is exactly that markup when precise positioning is off. */
  lemma PositionedKeepsPlain(e: Element, base: string, path: string, q: Option<PrecisePosition>, cfg: Config,
                             fmt: real -> string)
    requires !e.ImageEl?
    requires Positioned(e, base, path, q, cfg, fmt).Some?
    ensures Contains(Positioned(e, base, path, q, cfg, fmt).value, base)
    ensures !cfg.usePrecisePositioning ==> Positioned(e, base, path, q, cfg, fmt).value == base
  {
    if cfg.usePrecisePositioning {
      WrapKeepsBase(ElementPlacement(e, q.value.relX), base, fmt);
    } else {
      ContainsInfix([], base, []);
      assert [] + base + [] == base;
    }
  }

  // ---------------------------------------------------- absolute renderers

  function Percent(x: real, fmt: real -> string): string
  {
    fmt(x) + "%"
  }

  /** The `#place` directive at a position's left and top offsets. */
  function PlaceAt(p: Position, fmt: real -> string): string
  {
    "#place(\n  dx: " + Percent(p.left, fmt) + ",\n  dy: " + Percent(p.top, fmt) + ",\n)"
  }

  /** What follows the image call in a figure sized by a position. */
  function SizedFigureRest(p: Position, fmt: real -> string): string
  {
    ", width: " + Percent(p.width, fmt) + ", height: " + Percent(p.height, fmt) + "),\n  caption: []\n)"
  }

  /** What goes inside the directive: the image figure sized by the
      position, paragraphs and lists boxed to the position's width, headings
      and tables as they are. */
  function AbsoluteInner(e: Element, base: string, path: string, p: Position, fmt: real -> string): string
  {
    match e
    case ImageEl(_) =>
      "#figure(\n  " + ImageCall(path) + SizedFigureRest(p, fmt)
    case ParagraphEl(_) => "#box(width: " + Percent(p.width, fmt) + ")[" + base + "]"
    case ListEl(_) => "#box(width: " + Percent(p.width, fmt) + ")[" + base + "]"
    case _ => base
  }

  /** The clamped position of a box in the page's content area; `None` for
      the division by a zero content width or height. */
  function ContentPosition(b: BoundingBox, layout: PageLayout): (r: Option<Position>)
    ensures r.None? <==> !HasContentArea(layout)
    ensures r.Some? ==> WithinBounds(r.value)
  {
    if HasContentArea(layout) then Some(AbsolutePosition(b, layout)) else None
  }

  /** The `*_absolute` renderers, given the element's plain markup `base`
      and its clamped position: an image without a path is the missing-file
      comment; anything else is placed at the position. */
  function Absolute(e: Element, base: string, path: string, pos: Option<Position>,
                    fmt: real -> string): (r: Option<string>)
    ensures r.None? <==> pos.None? && !(e.ImageEl? && path == "")
  {
    if e.ImageEl? && path == "" then Some(MissingImage(e.image.filename))
    else if pos.None? then None
    else Some(PlaceAt(pos.value, fmt) + "[" + AbsoluteInner(e, base, path, pos.value, fmt) + "]")
  }

  /** An element placed absolutely on the page. */
  function AbsoluteMarkup(e: Element, path: string, layout: PageLayout, cfg: Config,
                          fmt: real -> string): (r: Option<string>)
    ensures r.None? <==> !HasContentArea(layout) && !(e.ImageEl? && path == "")
  {
    Absolute(e, PlainMarkup(e, path, cfg), path, ContentPosition(e.Box(), layout), fmt)
  }

  /** An absolutely placed element opens with a `#place` directive at its
      position, and holds the plain markup of a heading, paragraph, table or
      list intact. */
  lemma AbsolutePlaced(e: Element, base: string, path: string, pos: Option<Position>, fmt: real -> string)
    requires pos.Some? && !(e.ImageEl? && path == "")
    ensures PlaceAt(pos.value, fmt) <= Absolute(e, base, path, pos, fmt).value
    ensures !e.ImageEl? ==> Contains(Absolute(e, base, path, pos, fmt).value, base)
  {
    var p := pos.value;
    var inner := AbsoluteInner(e, base, path, p, fmt);
    assert Absolute(e, base, path, pos, fmt).value == PlaceAt(p, fmt) + "[" + inner + "]";
    if !e.ImageEl? {
      InnerHoldsBase(e, base, path, p, fmt);
      ContainsWithin(PlaceAt(p, fmt) + "[", inner, "]", base);
    }
  }

  lemma InnerHoldsBase(e: Element, base: string, path: string, p: Position, fmt: real -> string)
    requires !e.ImageEl?
    ensures Contains(AbsoluteInner(e, base, path, p, fmt), base)
  {
    if e.ParagraphEl? || e.ListEl? {
      ContainsInfix("#box(width: " + Percent(p.width, fmt) + ")[", base, "]");
    } else {
      ContainsInfix([], base, []);
      assert [] + base + [] == base;
    }
  }

  // ----------------------------------------------------------------- images

  lemma FigureReferencesPath(path: string, width: string)
    ensures Contains(Figure(path, width), ImageCall(path))
  {
    ContainsInfix("#figure(\n  ", ImageCall(path), FigureRest(width));
  }

  /** `_generate_image` refers to an image by its path, and is the
      missing-file comment when there is none. */
  lemma ImageMarkupReferencesPath(m: Image, path: string, cfg: Config)
    ensures path != "" ==> Contains(ImageMarkup(m, path, cfg), ImageCall(path))
    ensures path == "" ==> ImageMarkup(m, path, cfg) == MissingImage(m.filename)
  {
    if path != "" {
      var fig := Figure(path, cfg.imageWidth);
      FigureReferencesPath(path, cfg.imageWidth);
      if cfg.imageAlignment == "center" {
        ContainsInfix("#align(center)[\n", fig, "\n]");
        ContainsTransitive("#align(center)[\n" + fig + "\n]", fig, ImageCall(path));
      }
    }
  }

  /** A positioned image refers to its path, or is the missing-file comment
      when it has none. */
  lemma PositionedImageReferencesPath(m: Image, path: string, base: string, q: Option<PrecisePosition>,
                                      cfg: Config, fmt: real -> string)
    requires path != "" ==> q.Some?
    ensures path != "" ==> Contains(Positioned(ImageEl(m), base, path, q, cfg, fmt).value, ImageCall(path))
    ensures path == "" ==> Positioned(ImageEl(m), base, path, q, cfg, fmt) == Some(MissingImage(m.filename))
  {
    if path != "" {
      var width := if cfg.usePrecisePositioning then fmt(MinR(q.value.relWidth, 100.0)) + "%" else cfg.imageWidth;
      var fig := Figure(path, width);
      FigureReferencesPath(path, width);
      if cfg.usePrecisePositioning || cfg.imageAlignment == "center" {
        var pl := if cfg.usePrecisePositioning then ImagePlacement(q.value.relX) else AlignCenter;
        assert Positioned(ImageEl(m), base, path, q, cfg, fmt).value == Wrap(pl, fig, fmt);
        WrapKeepsBase(pl, fig, fmt);
        ContainsTransitive(Wrap(pl, fig, fmt), fig, ImageCall(path));
      }
    }
  }

  /** An absolutely placed image refers to its path, or is the missing-file
      comment when it has none. */
  lemma AbsoluteImageReferencesPath(m: Image, path: string, base: string, pos: Option<Position>,
                                    fmt: real -> string)
    requires path != "" ==> pos.Some?
    ensures path != "" ==> Contains(Absolute(ImageEl(m), base, path, pos, fmt).value, ImageCall(path))
    ensures path == "" ==> Absolute(ImageEl(m), base, path, pos, fmt) == Some(MissingImage(m.filename))
  {
    if path != "" {
      var p := pos.value;
      var inner := AbsoluteInner(ImageEl(m), base, path, p, fmt);
      ContainsInfix("#figure(\n  ", ImageCall(path), SizedFigureRest(p, fmt));
      ContainsInfix(PlaceAt(p, fmt) + "[", inner, "]");
      ContainsTransitive(Absolute(ImageEl(m), base, path, pos, fmt).value, inner, ImageCall(path));
    }
  }
}
