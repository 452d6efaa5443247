/** The page half of the Typst generator (`src/core/typst_generator.py`):
    the content of a layout region, the absolute, multi-column and
    single-column page layouts, the choice between them, the simple page
    that ignores the layout analysis, and the main content that joins the
    pages with page breaks.

    A renderer that divides by a zero page side raises in the source; here
    it yields `None`, and a page or document holding such an element is
    `None` as a whole. */
module TypstPages {
  import opened Text
  import opened Seqs
  import opened Models
  import opened LayoutAnalyzer
  import opened TypstText
  import opened TypstGenerator

  // ------------------------------------------------------------- generator

  /** What the page renderers read of the generator object: its
      configuration, the formatting of numbers, and the plain renderer of an
      element (given the element and its image path). */
  datatype Generator = Generator(cfg: Config, fmt: real -> string, plain: (Element, string) -> string)

  function PlainOf(cfg: Config): (Element, string) -> string
  {
    (e: Element, path: string) => PlainMarkup(e, path, cfg)
  }

  /** The generator of a configuration: plain markup by `_generate_heading`,
      `_generate_paragraph`, `_generate_table`, `_generate_image` and
      `_generate_list`. */
  function GeneratorOf(cfg: Config, fmt: real -> string): Generator
  {
    Generator(cfg, fmt, PlainOf(cfg))
  }

  /** The generator of a configuration renders an element in a region by
      `PositionedMarkup`. */
  lemma PositionedRendererOf(layout: PageLayout, paths: seq<string>, cfg: Config, fmt: real -> string, e: Element)
    ensures PositionedRenderer(layout, paths, GeneratorOf(cfg, fmt))(e) == PositionedMarkup(e, PathFor(e, paths), layout, cfg, fmt)
  {
  }

  /** The generator of a configuration places an element by `AbsoluteMarkup`. */
  lemma AbsoluteRendererOf(layout: PageLayout, paths: seq<string>, cfg: Config, fmt: real -> string, e: Element)
    ensures AbsoluteRenderer(layout, paths, GeneratorOf(cfg, fmt))(e) == AbsoluteMarkup(e, PathFor(e, paths), layout, cfg, fmt)
  {
  }

  // ------------------------------------------------------ rendering in order

  /** Renders the items in order; the first failure fails the whole, as a
      raised exception ends the source's loop. */
  function RenderAll<T>(items: seq<T>, render: T -> Option<string>): (r: Option<seq<string>>)
    ensures r.Some? <==> forall x :: x in items ==> render(x).Some?
    ensures r.Some? ==> |r.value| == |items| && forall i :: 0 <= i < |items| ==> r.value[i] == render(items[i]).value
    decreases |items|
  {
    if items == [] then Some([])
    else
      var init := items[..|items| - 1];
      var last := items[|items| - 1];
      assert items == init + [last];
      var r := RenderAll(init, render);
      var m := render(last);
      if r.None? || m.None? then None else Some(r.value + [m.value])
  }

  /** Both parts or neither. */
  function Both(a: Option<seq<string>>, b: Option<seq<string>>): Option<seq<string>>
  {
    if a.Some? && b.Some? then Some(a.value + b.value) else None
  }

  /** Rendering a concatenation renders its two parts. */
  lemma {:induction false} RenderAllAppend<T>(a: seq<T>, b: seq<T>, render: T -> Option<string>)
    ensures RenderAll(a + b, render) == Both(RenderAll(a, render), RenderAll(b, render))
    decreases |b|
  {
    var ra := RenderAll(a, render);
    if b == [] {
      assert a + b == a;
      if ra.Some? {
        assert ra.value + [] == ra.value;
      }
    } else {
      var init, x := b[..|b| - 1], b[|b| - 1];
      RenderAllAppend(a, init, render);
      assert b == init + [x];
      assert a + b == (a + init) + [x];
      RenderAllSnoc(a + init, x, render);
      RenderAllSnoc(init, x, render);
      BothExtend(ra, RenderAll(init, render), render(x));
    }
  }

  lemma BothExtend(ra: Option<seq<string>>, ri: Option<seq<string>>, m: Option<string>)
    ensures Both(ra, if ri.Some? && m.Some? then Some(ri.value + [m.value]) else None)
         == (var r := Both(ra, ri); if r.Some? && m.Some? then Some(r.value + [m.value]) else None)
  {
    if ra.Some? && ri.Some? && m.Some? {
      assert ra.value + ri.value + [m.value] == ra.value + (ri.value + [m.value]);
    }
  }

  /** Rendering one more item extends the rendered prefix. */
  lemma RenderAllSnoc<T>(done: seq<T>, x: T, render: T -> Option<string>)
    ensures RenderAll(done + [x], render) ==
              if RenderAll(done, render).Some? && render(x).Some?
              then Some(RenderAll(done, render).value + [render(x).value]) else None
  {
    assert (done + [x])[..|done + [x]| - 1] == done;
  }

  /** A failure in a prefix fails the whole. */
  lemma RenderAllPrefixFails<T>(a: seq<T>, b: seq<T>, render: T -> Option<string>)
    requires RenderAll(a, render).None?
    ensures RenderAll(a + b, render).None?
  {
    var x :| x in a && render(x).None?;
    assert x in a + b;
  }

  /** Joins rendered parts with blank lines, as `'\n\n'.join(...)`. */
  function Joined(r: Option<seq<string>>): (s: Option<string>)
    ensures s.Some? <==> r.Some?
  {
    if r.None? then None else Some(Join("\n\n", r.value))
  }

  // ---------------------------------------------------------- region content

  /** `_generate_region_content`'s renderer for one element: the positioned
      markup, an image with the first path that contains its file name. */
  function PositionedRenderer(layout: PageLayout, paths: seq<string>, g: Generator): Element -> Option<string>
  {
    (e: Element) =>
      var path := PathFor(e, paths);
      Positioned(e, g.plain(e, path), path, GetElementPrecisePosition(e, layout), g.cfg, g.fmt)
  }

  /** `_generate_region_content`: the region's elements, in the region's
      order, positioned and joined by blank lines. */
  function RegionContent(region: LayoutRegion, layout: PageLayout, paths: seq<string>, g: Generator): Option<string>
  {
    Joined(RenderAll(region.elements, PositionedRenderer(layout, paths, g)))
  }

  function RegionRenderer(layout: PageLayout, paths: seq<string>, g: Generator): LayoutRegion -> Option<string>
  {
    (region: LayoutRegion) => RegionContent(region, layout, paths, g)
  }

  /** Whether the positioned renderer of an element reads its precise
      position: an image with a path always, anything else under precise
      positioning. */
  predicate NeedsPrecisePosition(e: Element, paths: seq<string>, cfg: Config)
  {
    if e.ImageEl? then PathFor(e, paths) != "" else cfg.usePrecisePositioning
  }

  predicate HasZeroSide(layout: PageLayout)
  {
    layout.pageWidth == 0.0 || layout.pageHeight == 0.0
  }

  /** An element's positioned markup fails exactly on a page with a zero
      side when its renderer reads the position. */
  lemma PositionedRendererFails(layout: PageLayout, paths: seq<string>, g: Generator, e: Element)
    ensures PositionedRenderer(layout, paths, g)(e).None? <==>
              HasZeroSide(layout) && NeedsPrecisePosition(e, paths, g.cfg)
  {
    var path := PathFor(e, paths);
    assert PositionedRenderer(layout, paths, g)(e) ==
           Positioned(e, g.plain(e, path), path, GetElementPrecisePosition(e, layout), g.cfg, g.fmt);
  }

  /** A region's content fails only on a page with a zero side, and only
      when it holds an element whose renderer reads the position. */
  lemma RegionContentFails(region: LayoutRegion, layout: PageLayout, paths: seq<string>, g: Generator)
    ensures RegionContent(region, layout, paths, g).None? <==>
              HasZeroSide(layout) && exists e :: e in region.elements && NeedsPrecisePosition(e, paths, g.cfg)
  {
    var render := PositionedRenderer(layout, paths, g);
    if RegionContent(region, layout, paths, g).None? {
      var e :| e in region.elements && render(e).None?;
      PositionedRendererFails(layout, paths, g, e);
    }
    if HasZeroSide(layout) && exists e :: e in region.elements && NeedsPrecisePosition(e, paths, g.cfg) {
      var e :| e in region.elements && NeedsPrecisePosition(e, paths, g.cfg);
      PositionedRendererFails(layout, paths, g, e);
    }
  }

  /** The source's rendering loops: renders the items one by one and stops
      at the first failure. */
  method RenderEach<T>(items: seq<T>, render: T -> Option<string>) returns (r: Option<seq<string>>)
    ensures r == RenderAll(items, render)
  {
    var parts: seq<string> := [];
    var i := 0;
    while i < |items|
      invariant 0 <= i <= |items|
      invariant RenderAll(items[..i], render) == Some(parts)
    {
      var m := render(items[i]);
      assert items[..i + 1] == items[..i] + [items[i]];
      RenderAllSnoc(items[..i], items[i], render);
      if m.None? {
        return None;
      }
      parts := parts + [m.value];
      i := i + 1;
    }
    assert items[..i] == items;
    r := Some(parts);
  }

  /** `_generate_region_content`. */
  method GenerateRegionContent(region: LayoutRegion, layout: PageLayout, paths: seq<string>, g: Generator) returns (r: Option<string>)
    ensures r == RegionContent(region, layout, paths, g)
  {
    var parts := RenderEach(region.elements, PositionedRenderer(layout, paths, g));
    r := if parts.None? then None else Some(Join("\n\n", parts.value));
  }

  // --------------------------------------------------------- absolute layout

  function ByTop(e: Element): Key { Key(e.Box().y0, 0.0, 0.0) }

  function Single(e: Element): seq<Element> { [e] }

  /** `_analyze_element_relationships_for_layout`: the region's elements
      sorted by their top edge, each in a group of its own. */
  function LayoutGroups(region: LayoutRegion): (groups: seq<seq<Element>>)
    ensures |groups| == |region.elements|
    ensures forall i :: 0 <= i < |groups| ==> |groups[i]| == 1
  {
    Map(SortByKey(region.elements, ByTop), Single)
  }

  /** The groups together are the region's elements in top-to-bottom order,
      every element once. */
  lemma LayoutGroupsFlatten(region: LayoutRegion)
    ensures Flatten(LayoutGroups(region)) == SortByKey(region.elements, ByTop)
    ensures SortedBy(Flatten(LayoutGroups(region)), ByTop)
    ensures multiset(Flatten(LayoutGroups(region))) == multiset(region.elements)
  {
    FlattenSingletons(SortByKey(region.elements, ByTop));
  }

  lemma {:induction false} FlattenSingletons(s: seq<Element>)
    ensures Flatten(Map(s, Single)) == s
  {
    if s != [] {
      FlattenSingletons(s[1..]);
      assert s == [s[0]] + s[1..];
    }
  }

  function AbsoluteRegions(layout: PageLayout): seq<LayoutRegion>
  {
    Filter(layout.regions, OfType(AbsoluteRegion))
  }

  /** The members of every group of every region, region by region. */
  function FlattenGroups<R, T>(rs: seq<R>, groupsOf: R -> seq<seq<T>>): seq<T>
  {
    if rs == [] then [] else FlattenGroups(rs[..|rs| - 1], groupsOf) + Flatten(groupsOf(rs[|rs| - 1]))
  }

  /** A member of a group is among the flattened members. */
  lemma {:induction false} FlattenGroupsMember<R, T>(rs: seq<R>, groupsOf: R -> seq<seq<T>>, i: int, j: int, x: T)
    requires 0 <= i < |rs| && 0 <= j < |groupsOf(rs[i])| && x in groupsOf(rs[i])[j]
    ensures x in FlattenGroups(rs, groupsOf)
    decreases |rs|
  {
    FlattenMember(groupsOf(rs[i]), j, x);
    if i < |rs| - 1 {
      FlattenGroupsMember(rs[..|rs| - 1], groupsOf, i, j, x);
    }
  }

  /** The elements `_generate_absolute_layout` places, in its order: region
      by region, group by group. */
  function AbsoluteElements(layout: PageLayout): seq<Element>
  {
    FlattenGroups(AbsoluteRegions(layout), LayoutGroups)
  }

  /** The `*_absolute` renderer for one element, an image with the first
      path that contains its file name. */
  function AbsoluteRenderer(layout: PageLayout, paths: seq<string>, g: Generator): Element -> Option<string>
  {
    (e: Element) =>
      var path := PathFor(e, paths);
      Absolute(e, g.plain(e, path), path, ContentPosition(e.Box(), layout), g.fmt)
  }

  /** `_generate_absolute_layout`: the placed elements joined by blank
      lines; empty when the page has no absolute region. */
  function AbsoluteLayoutMarkup(layout: PageLayout, paths: seq<string>, g: Generator): Option<string>
  {
    Joined(RenderAll(AbsoluteElements(layout), AbsoluteRenderer(layout, paths, g)))
  }

  /** An element's absolute markup fails exactly on a page without a
      content area, unless it is an image without a path. */
  lemma AbsoluteRendererFails(layout: PageLayout, paths: seq<string>, g: Generator, e: Element)
    ensures AbsoluteRenderer(layout, paths, g)(e).None? <==>
              !HasContentArea(layout) && !(e.ImageEl? && PathFor(e, paths) == "")
  {
    var path := PathFor(e, paths);
    assert AbsoluteRenderer(layout, paths, g)(e) ==
           Absolute(e, g.plain(e, path), path, ContentPosition(e.Box(), layout), g.fmt);
  }

  /** The absolute layout fails exactly when the page has no content area
      and some element other than a path-less image is to be placed. */
  lemma AbsoluteLayoutFails(layout: PageLayout, paths: seq<string>, g: Generator)
    ensures AbsoluteLayoutMarkup(layout, paths, g).None? <==>
              !HasContentArea(layout)
              && exists e :: e in AbsoluteElements(layout) && !(e.ImageEl? && PathFor(e, paths) == "")
  {
    var render := AbsoluteRenderer(layout, paths, g);
    if AbsoluteLayoutMarkup(layout, paths, g).None? {
      var e :| e in AbsoluteElements(layout) && render(e).None?;
      AbsoluteRendererFails(layout, paths, g, e);
    }
    if !HasContentArea(layout)
       && exists e :: e in AbsoluteElements(layout) && !(e.ImageEl? && PathFor(e, paths) == "") {
      var e :| e in AbsoluteElements(layout) && !(e.ImageEl? && PathFor(e, paths) == "");
      AbsoluteRendererFails(layout, paths, g, e);
    }
  }

  function ElementsOf(region: LayoutRegion): seq<Element> { region.elements }

  /** Every element of every absolute region is placed exactly once, and
      nothing else is. */
  lemma {:induction false} AbsoluteElementsOfRegions(rs: seq<LayoutRegion>)
    ensures multiset(FlattenGroups(rs, LayoutGroups)) == multiset(FlattenGroups(rs, Single2))
    decreases |rs|
  {
    if rs != [] {
      var init, last := rs[..|rs| - 1], rs[|rs| - 1];
      AbsoluteElementsOfRegions(init);
      LayoutGroupsFlatten(last);
      assert Flatten(Single2(last)) == last.elements;
      calc {
        multiset(FlattenGroups(rs, LayoutGroups));
        multiset(FlattenGroups(init, LayoutGroups)) + multiset(Flatten(LayoutGroups(last)));
        multiset(FlattenGroups(init, Single2)) + multiset(last.elements);
        multiset(FlattenGroups(rs, Single2));
      }
    }
  }

  /** A region's elements as one group. */
  function Single2(region: LayoutRegion): seq<seq<Element>> { [region.elements] }

  /** Renders `items` after the already rendered `done`, one by one,
      stopping at the first failure. */
  method RenderInto<T>(ghost done: seq<T>, parts: seq<string>, items: seq<T>, render: T -> Option<string>)
    returns (r: Option<seq<string>>)
    requires RenderAll(done, render) == Some(parts)
    ensures r == RenderAll(done + items, render)
  {
    var acc := parts;
    var i := 0;
    assert done + items[..0] == done;
    while i < |items|
      invariant 0 <= i <= |items|
      invariant RenderAll(done + items[..i], render) == Some(acc)
    {
      var m := render(items[i]);
      assert done + items[..i + 1] == (done + items[..i]) + [items[i]];
      RenderAllSnoc(done + items[..i], items[i], render);
      if m.None? {
        assert items[i] in done + items;
        return None;
      }
      acc := acc + [m.value];
      i := i + 1;
    }
    assert items[..i] == items;
    r := Some(acc);
  }

  /** The loop over one region's groups. */
  method RenderGroupsInto<T>(ghost done: seq<T>, parts: seq<string>, groups: seq<seq<T>>,
                             render: T -> Option<string>) returns (r: Option<seq<string>>)
    requires RenderAll(done, render) == Some(parts)
    ensures r == RenderAll(done + Flatten(groups), render)
  {
    var acc := parts;
    ghost var seen := done;
    var j := 0;
    assert done + Flatten(groups[..0]) == done;
    while j < |groups|
      invariant 0 <= j <= |groups|
      invariant seen == done + Flatten(groups[..j])
      invariant RenderAll(seen, render) == Some(acc)
    {
      var next := RenderInto(seen, acc, groups[j], render);
      FlattenPrefixSnoc(done, groups, j);
      if next.None? {
        FlattenPrefixFails(done, groups, j + 1, render);
        return None;
      }
      acc := next.value;
      seen := seen + groups[j];
      j := j + 1;
    }
    assert groups[..j] == groups;
    r := Some(acc);
  }

  lemma FlattenPrefixSnoc<T>(done: seq<T>, groups: seq<seq<T>>, j: int)
    requires 0 <= j < |groups|
    ensures done + Flatten(groups[..j + 1]) == (done + Flatten(groups[..j])) + groups[j]
  {
    FlattenAppend(groups[..j], groups[j]);
    assert groups[..j + 1] == groups[..j] + [groups[j]];
  }

  lemma FlattenPrefixFails<T>(done: seq<T>, groups: seq<seq<T>>, n: int, render: T -> Option<string>)
    requires 0 <= n <= |groups| && RenderAll(done + Flatten(groups[..n]), render).None?
    ensures RenderAll(done + Flatten(groups), render).None?
  {
    FlattenConcat(groups[..n], groups[n..]);
    assert groups == groups[..n] + groups[n..];
    RenderAllPrefixFails(done + Flatten(groups[..n]), Flatten(groups[n..]), render);
    assert done + Flatten(groups) == (done + Flatten(groups[..n])) + Flatten(groups[n..]);
  }

  /** The source's nested rendering loops: over the regions, the groups of
      each region and the members of each group, stopping at the first
      failure. */
  method RenderGroups<R, T>(regions: seq<R>, groupsOf: R -> seq<seq<T>>, render: T -> Option<string>)
    returns (r: Option<seq<string>>)
    ensures r == RenderAll(FlattenGroups(regions, groupsOf), render)
  {
    var parts: seq<string> := [];
    var i := 0;
    while i < |regions|
      invariant 0 <= i <= |regions|
      invariant RenderAll(FlattenGroups(regions[..i], groupsOf), render) == Some(parts)
    {
      assert regions[..i + 1][..i] == regions[..i];
      var next := RenderGroupsInto(FlattenGroups(regions[..i], groupsOf), parts, groupsOf(regions[i]), render);
      if next.None? {
        FlattenGroupsPrefixFails(regions, groupsOf, i + 1, render);
        return None;
      }
      parts := next.value;
      i := i + 1;
    }
    assert regions[..i] == regions;
    r := Some(parts);
  }

  /** Once a prefix of the regions fails to render, so do all of them. */
  lemma FlattenGroupsPrefixFails<R, T>(rs: seq<R>, groupsOf: R -> seq<seq<T>>, n: int, render: T -> Option<string>)
    requires 0 <= n <= |rs| && RenderAll(FlattenGroups(rs[..n], groupsOf), render).None?
    ensures RenderAll(FlattenGroups(rs, groupsOf), render).None?
  {
    var x :| x in FlattenGroups(rs[..n], groupsOf) && render(x).None?;
    FlattenGroupsPrefix(rs, groupsOf, n, x);
  }

  lemma {:induction false} FlattenGroupsPrefix<R, T>(rs: seq<R>, groupsOf: R -> seq<seq<T>>, n: int, x: T)
    requires 0 <= n <= |rs| && x in FlattenGroups(rs[..n], groupsOf)
    ensures x in FlattenGroups(rs, groupsOf)
    decreases |rs|
  {
    if n < |rs| {
      assert rs[..|rs| - 1][..n] == rs[..n];
      FlattenGroupsPrefix(rs[..|rs| - 1], groupsOf, n, x);
    } else {
      assert rs[..n] == rs;
    }
  }

  /** `_generate_absolute_layout`. */
  method GenerateAbsoluteLayout(layout: PageLayout, paths: seq<string>, g: Generator) returns (r: Option<string>)
    ensures r == AbsoluteLayoutMarkup(layout, paths, g)
  {
    var regions := AbsoluteRegions(layout);
    if regions == [] {
      return Some("");
    }
    var parts := RenderGroups(regions, LayoutGroups, AbsoluteRenderer(layout, paths, g));
    r := if parts.None? then None else Some(Join("\n\n", parts.value));
  }

  // ---------------------------------------------------- multi-column layout

  function ColumnRegions(layout: PageLayout): seq<LayoutRegion>
  {
    Filter(layout.regions, OfType(ColumnRegion))
  }

  function BoxColumn(content: string): string
  {
    "#box(width: 100%)[" + content + "]"
  }

  /** The `#columns` block around the boxed column contents. */
  function ColumnsBlock(n: nat, contents: seq<string>): string
  {
    "#columns(" + NatToString(n) + ", gutter: 1em)[\n" + Join("\n\n", Map(contents, BoxColumn)) + "\n]"
  }

  /** `_generate_multi_column_layout`: empty without column regions; the
      per-column widths divide by the page width, so a zero page width
      fails; otherwise one box per column region, in region order. The
      widths themselves are computed and then not used. */
  function ColumnsMarkup(layout: PageLayout, paths: seq<string>, g: Generator): (r: Option<string>)
    ensures ColumnRegions(layout) == [] ==> r == Some("")
    ensures ColumnRegions(layout) != [] && layout.pageWidth == 0.0 ==> r.None?
  {
    var columns := ColumnRegions(layout);
    if columns == [] then Some("")
    else if layout.pageWidth == 0.0 then None
    else
      var contents := RenderAll(columns, RegionRenderer(layout, paths, g));
      if contents.None? then None else Some(ColumnsBlock(|columns|, contents.value))
  }

  /** Every column region's content appears boxed in the block. */
  lemma ColumnsBlockHoldsColumns(n: nat, contents: seq<string>, i: int)
    requires 0 <= i < |contents|
    ensures Contains(ColumnsBlock(n, contents), BoxColumn(contents[i]))
  {
    var boxed := Map(contents, BoxColumn);
    var joined := Join("\n\n", boxed);
    JoinContainsPart("\n\n", boxed, i);
    ContainsInfix("#columns(" + NatToString(n) + ", gutter: 1em)[\n", joined, "\n]");
    ContainsTransitive(ColumnsBlock(n, contents), joined, boxed[i]);
  }

  /** A multi-column page names its column count and holds each column's
      content, in a box of its own. */
  lemma ColumnsMarkupShape(layout: PageLayout, paths: seq<string>, g: Generator, i: int)
    requires ColumnsMarkup(layout, paths, g).Some? && 0 <= i < |ColumnRegions(layout)|
    ensures RegionContent(ColumnRegions(layout)[i], layout, paths, g).Some?
    ensures Contains(ColumnsMarkup(layout, paths, g).value,
                     BoxColumn(RegionContent(ColumnRegions(layout)[i], layout, paths, g).value))
    ensures ("#columns(" + NatToString(|ColumnRegions(layout)|) + ", gutter: 1em)[\n")
              <= ColumnsMarkup(layout, paths, g).value
  {
    var columns := ColumnRegions(layout);
    var render := RegionRenderer(layout, paths, g);
    var contents := RenderAll(columns, render);
    assert columns[i] in columns;
    ColumnsBlockHoldsColumns(|columns|, contents.value, i);
  }

  /** `_generate_multi_column_layout` as its loop over the column regions. */
  method GenerateMultiColumnLayout(layout: PageLayout, paths: seq<string>, g: Generator) returns (r: Option<string>)
    ensures r == ColumnsMarkup(layout, paths, g)
  {
    var columns := ColumnRegions(layout);
    if columns == [] {
      return Some("");
    }
    if layout.pageWidth == 0.0 {
      return None;
    }
    var contents := RenderEach(columns, RegionRenderer(layout, paths, g));
    if contents.None? {
      return None;
    }
    r := Some(ColumnsBlock(|columns|, contents.value));
  }

  // --------------------------------------------------- single-column layout

  /** The order `_generate_single_column_layout` gives region types: header,
      then body, then footer. */
  function RegionRank(t: RegionType): real
  {
    match t
    case HeaderRegion => 0.0
    case FooterRegion => 2.0
    case _ => 1.0
  }

  function RegionOrder(region: LayoutRegion): Key { Key(RegionRank(region.regionType), 0.0, 0.0) }

  function HasText(s: string): bool { !IsBlank(s) }

  /** `_generate_single_column_layout`: the regions stably sorted header
      first and footer last, the content of each that is not blank, joined
      by blank lines. */
  function SingleColumnMarkup(layout: PageLayout, paths: seq<string>, g: Generator): Option<string>
  {
    var contents := RenderAll(SortByKey(layout.regions, RegionOrder), RegionRenderer(layout, paths, g));
    if contents.None? then None else Some(Join("\n\n", Filter(contents.value, HasText)))
  }

  /** No header region comes after a body region and no body region after a
      footer region, and every region is rendered once. */
  lemma SingleColumnOrder(layout: PageLayout)
    ensures var sorted := SortByKey(layout.regions, RegionOrder);
      && multiset(sorted) == multiset(layout.regions)
      && forall i, j :: 0 <= i < j < |sorted| ==>
           RegionRank(sorted[i].regionType) <= RegionRank(sorted[j].regionType)
  {
    var sorted := SortByKey(layout.regions, RegionOrder);
    forall i, j | 0 <= i < j < |sorted|
      ensures RegionRank(sorted[i].regionType) <= RegionRank(sorted[j].regionType)
    {
      assert KeyLe(RegionOrder(sorted[i]), RegionOrder(sorted[j]));
    }
  }

  /** `_generate_single_column_layout` as its loop over the sorted regions. */
  method GenerateSingleColumnLayout(layout: PageLayout, paths: seq<string>, g: Generator) returns (r: Option<string>)
    ensures r == SingleColumnMarkup(layout, paths, g)
  {
    var sorted := SortByKey(layout.regions, RegionOrder);
    var render := RegionRenderer(layout, paths, g);
    var contents := RenderEach(sorted, render);
    if contents.None? {
      return None;
    }
    var cs := contents.value;
    var parts: seq<string> := [];
    var i := 0;
    while i < |cs|
      invariant 0 <= i <= |cs|
      invariant parts == Filter(cs[..i], HasText)
    {
      FilterSnoc(cs, i, HasText);
      if !IsBlank(cs[i]) {
        parts := parts + [cs[i]];
      }
      i := i + 1;
    }
    assert cs[..i] == cs;
    r := Some(Join("\n\n", parts));
  }

  // ----------------------------------------------------------- page choice

  /** `_generate_page_with_layout` after the analysis: the layout the page
      strategy picks. */
  function PageLayoutMarkup(layout: PageLayout, paths: seq<string>, g: Generator): Option<string>
  {
    match PageStrategy(layout, g.cfg)
    case AbsoluteStrategy => AbsoluteLayoutMarkup(layout, paths, g)
    case MultiColumnStrategy => ColumnsMarkup(layout, paths, g)
    case SingleColumnStrategy => SingleColumnMarkup(layout, paths, g)
  }

  /** `_generate_page_with_layout`: analyzes the page, then renders it. */
  method GeneratePageWithLayout(d: ParsedDocument, p: int, paths: seq<string>, g: Generator)
    returns (r: Option<string>)
    ensures r == PageLayoutMarkup(AnalyzedLayout(d, p), paths, g)
  {
    var layout := AnalyzePageLayout(d, p);
    r := GenerateLayout(layout, paths, g);
  }

  /** The rendering step of `_generate_page_with_layout`. */
  method GenerateLayout(layout: PageLayout, paths: seq<string>, g: Generator) returns (r: Option<string>)
    ensures r == PageLayoutMarkup(layout, paths, g)
  {
    var absolute := AbsoluteRegions(layout);
    if absolute != [] && g.cfg.usePrecisePositioning {
      r := GenerateAbsoluteLayout(layout, paths, g);
    } else if layout.columnCount > 1 && g.cfg.detectColumns {
      r := GenerateMultiColumnLayout(layout, paths, g);
    } else {
      r := GenerateSingleColumnLayout(layout, paths, g);
    }
  }

  /** A page whose only region is absolute is, under precise positioning,
      placed absolutely: the region's elements top to bottom. */
  lemma SingleAbsoluteRegion(layout: PageLayout, paths: seq<string>, g: Generator)
    requires |layout.regions| == 1 && layout.regions[0].regionType == AbsoluteRegion
    requires g.cfg.usePrecisePositioning
    ensures PageLayoutMarkup(layout, paths, g) == AbsoluteLayoutMarkup(layout, paths, g)
    ensures AbsoluteElements(layout) == SortByKey(layout.regions[0].elements, ByTop)
  {
    var region := layout.regions[0];
    assert layout.regions == [region];
    assert OfType(AbsoluteRegion)(region);
    assert AbsoluteRegions(layout) == [region];
    assert HasRegionOfType(layout, AbsoluteRegion);
    LayoutGroupsFlatten(region);
    assert [region][..0] == [];
    assert FlattenGroups([region], LayoutGroups) == [] + Flatten(LayoutGroups(region));
  }

  /** An analyzed page with elements, under precise positioning, is placed
      absolutely: each of its elements exactly once, top to bottom. */
  lemma AnalyzedPageIsAbsolute(d: ParsedDocument, p: int, paths: seq<string>, g: Generator)
    requires g.cfg.usePrecisePositioning && CollectAllElements(GetElementsByPage(d, p)) != []
    ensures var layout := AnalyzedLayout(d, p);
      && PageLayoutMarkup(layout, paths, g) == AbsoluteLayoutMarkup(layout, paths, g)
      && multiset(AbsoluteElements(layout)) == multiset(CollectAllElements(GetElementsByPage(d, p)))
      && SortedBy(AbsoluteElements(layout), ByTop)
  {
    var layout := AnalyzedLayout(d, p);
    SingleAbsoluteRegion(layout, paths, g);
  }

  // ------------------------------------------------------------ simple page

  function HeadingItem(h: Heading): (Element, string) { (HeadingEl(h), "") }
  function ParagraphItem(q: Paragraph): (Element, string) { (ParagraphEl(q), "") }
  function TableItem(t: Table): (Element, string) { (TableEl(t), "") }
  function ListItemOf(l: DocList): (Element, string) { (ListEl(l), "") }

  /** The `i`-th image of the page takes the `i`-th path of the whole
      document, whatever its file name. */
  function ImageItems(images: seq<Image>, paths: seq<string>): (r: seq<(Element, string)>)
    ensures |r| == |images|
    ensures forall i :: 0 <= i < |images| ==> r[i] == (ImageEl(images[i]), if i < |paths| then paths[i] else "")
  {
    seq(|images|, (i: int) requires 0 <= i < |images| => (ImageEl(images[i]), if i < |paths| then paths[i] else ""))
  }

  /** The `(element, image path)` pairs of `_generate_page_simple`, in the
      order it collects them. */
  function SimpleItems(pe: PageElements, paths: seq<string>): seq<(Element, string)>
  {
    Map(pe.headings, HeadingItem) + Map(pe.paragraphs, ParagraphItem) + Map(pe.tables, TableItem)
    + ImageItems(pe.images, paths) + Map(pe.lists, ListItemOf)
  }

  /** The sort key of `_generate_page_simple`: the negated top edge. */
  function NegatedTop(item: (Element, string)): Key { Key(-item.0.Box().y0, 0.0, 0.0) }

  function PlainItem(g: Generator): ((Element, string)) -> string
  {
    (item: (Element, string)) => g.plain(item.0, item.1)
  }

  /** `_generate_page_simple`: the page's elements stably sorted by the
      negated top edge, each in its plain markup, joined by blank lines. */
  function PageSimpleMarkup(pe: PageElements, paths: seq<string>, g: Generator): string
  {
    Join("\n\n", Map(SortByKey(SimpleItems(pe, paths), NegatedTop), PlainItem(g)))
  }

  /** The collected pairs, position by position: headings, paragraphs,
      tables, images and lists, in that order. */
  lemma SimpleItemsOrder(pe: PageElements, paths: seq<string>)
    ensures var r := SimpleItems(pe, paths);
      && |r| == |pe.headings| + |pe.paragraphs| + |pe.tables| + |pe.images| + |pe.lists|
      && (forall i :: 0 <= i < |pe.headings| ==> r[i].0 == HeadingEl(pe.headings[i]))
      && (forall i :: 0 <= i < |pe.paragraphs| ==> r[|pe.headings| + i].0 == ParagraphEl(pe.paragraphs[i]))
      && (forall i :: 0 <= i < |pe.tables| ==> r[|pe.headings| + |pe.paragraphs| + i].0 == TableEl(pe.tables[i]))
      && (forall i :: 0 <= i < |pe.images| ==>
            r[|pe.headings| + |pe.paragraphs| + |pe.tables| + i].0 == ImageEl(pe.images[i]))
      && (forall i :: 0 <= i < |pe.lists| ==>
            r[|pe.headings| + |pe.paragraphs| + |pe.tables| + |pe.images| + i].0 == ListEl(pe.lists[i]))
  {
  }

  /** The simple page collects the same elements as the layout analysis,
      in the same order. */
  lemma SimpleItemsAreCollected(pe: PageElements, paths: seq<string>)
    ensures |SimpleItems(pe, paths)| == |CollectAllElements(pe)|
    ensures forall k :: 0 <= k < |SimpleItems(pe, paths)| ==> SimpleItems(pe, paths)[k].0 == CollectAllElements(pe)[k]
  {
    CollectAllElementsOrder(pe);
    SimpleItemsOrder(pe, paths);
    SamePositions(pe, SimpleItems(pe, paths), CollectAllElements(pe));
  }

  /** Two sequences laid out by the same five groups of a page agree. */
  lemma SamePositions(pe: PageElements, items: seq<(Element, string)>, all: seq<Element>)
    requires |items| == |all| == |pe.headings| + |pe.paragraphs| + |pe.tables| + |pe.images| + |pe.lists|
    requires forall i :: 0 <= i < |pe.headings| ==> items[i].0 == HeadingEl(pe.headings[i]) == all[i]
    requires forall i :: 0 <= i < |pe.paragraphs| ==>
               items[|pe.headings| + i].0 == ParagraphEl(pe.paragraphs[i]) == all[|pe.headings| + i]
    requires forall i :: 0 <= i < |pe.tables| ==>
               items[|pe.headings| + |pe.paragraphs| + i].0 == TableEl(pe.tables[i])
               == all[|pe.headings| + |pe.paragraphs| + i]
    requires forall i :: 0 <= i < |pe.images| ==>
               items[|pe.headings| + |pe.paragraphs| + |pe.tables| + i].0 == ImageEl(pe.images[i])
               == all[|pe.headings| + |pe.paragraphs| + |pe.tables| + i]
    requires forall i :: 0 <= i < |pe.lists| ==>
               items[|pe.headings| + |pe.paragraphs| + |pe.tables| + |pe.images| + i].0 == ListEl(pe.lists[i])
               == all[|pe.headings| + |pe.paragraphs| + |pe.tables| + |pe.images| + i]
    ensures forall k :: 0 <= k < |items| ==> items[k].0 == all[k]
  {
    var nh, np, nt, ni := |pe.headings|, |pe.paragraphs|, |pe.tables|, |pe.images|;
    forall k | 0 <= k < |items| ensures items[k].0 == all[k] {
      if k < nh {
        assert items[k].0 == HeadingEl(pe.headings[k]);
      } else if k < nh + np {
        var i := k - nh;
        assert items[nh + i].0 == ParagraphEl(pe.paragraphs[i]);
      } else if k < nh + np + nt {
        var i := k - nh - np;
        assert items[nh + np + i].0 == TableEl(pe.tables[i]);
      } else if k < nh + np + nt + ni {
        var i := k - nh - np - nt;
        assert items[nh + np + nt + i].0 == ImageEl(pe.images[i]);
      } else {
        var i := k - nh - np - nt - ni;
        assert items[nh + np + nt + ni + i].0 == ListEl(pe.lists[i]);
      }
    }
  }

  /** The simple page renders its elements each once, from the largest top
      edge to the smallest. */
  lemma SimplePageOrder(pe: PageElements, paths: seq<string>)
    ensures var sorted := SortByKey(SimpleItems(pe, paths), NegatedTop);
      && multiset(sorted) == multiset(SimpleItems(pe, paths))
      && forall i, j :: 0 <= i < j < |sorted| ==> sorted[i].0.Box().y0 >= sorted[j].0.Box().y0
  {
    var sorted := SortByKey(SimpleItems(pe, paths), NegatedTop);
    forall i, j | 0 <= i < j < |sorted| ensures sorted[i].0.Box().y0 >= sorted[j].0.Box().y0 {
      assert KeyLe(NegatedTop(sorted[i]), NegatedTop(sorted[j]));
    }
  }

  /** The simple page pairs the `i`-th image of the page with the `i`-th
      path of the document, not with the path named after the image: on a
      page after one with images, an image is drawn from another image's
      file. */
  lemma SimplePageImagePaths(pe: PageElements, paths: seq<string>, i: int)
    requires 0 <= i < |pe.images|
    ensures (ImageEl(pe.images[i]), if i < |paths| then paths[i] else "")
              in multiset(SortByKey(SimpleItems(pe, paths), NegatedTop))
  {
    var before := |pe.headings| + |pe.paragraphs| + |pe.tables|;
    var items := SimpleItems(pe, paths);
    assert items[before + i] == ImageItems(pe.images, paths)[i];
    assert items[before + i] in multiset(items);
  }

  /** `_generate_page_simple` as its loops: collect, sort, render. */
  method GeneratePageSimple(d: ParsedDocument, p: int, paths: seq<string>, g: Generator) returns (s: string)
    ensures s == PageSimpleMarkup(GetElementsByPage(d, p), paths, g)
  {
    var pe := GetElementsByPage(d, p);
    var sorted := SortByKey(SimpleItems(pe, paths), NegatedTop);
    var parts: seq<string> := [];
    for i := 0 to |sorted|
      invariant parts == Map(sorted[..i], PlainItem(g))
    {
      MapSnoc(sorted, i, PlainItem(g));
      parts := parts + [g.plain(sorted[i].0, sorted[i].1)];
    }
    assert sorted[..|sorted|] == sorted;
    s := Join("\n\n", parts);
  }

  // ----------------------------------------------------------- main content

  /** One page of the document: by the layout analysis when the layout is
      to be preserved, else the simple page. */
  function PageContent(d: ParsedDocument, p: int, paths: seq<string>, g: Generator): Option<string>
  {
    if g.cfg.preserveLayout then PageLayoutMarkup(AnalyzedLayout(d, p), paths, g)
    else Some(PageSimpleMarkup(GetElementsByPage(d, p), paths, g))
  }

  function PageRenderer(d: ParsedDocument, paths: seq<string>, g: Generator): int -> Option<string>
  {
    (p: int) => PageContent(d, p, paths, g)
  }

  /** The page numbers 1 to n. */
  function PageNumbers(n: nat): (r: seq<int>)
    ensures |r| == n && forall i :: 0 <= i < n ==> r[i] == i + 1
  {
    seq(n, (i: int) => i + 1)
  }

  const PageBreak: string := "#pagebreak()"

  /** The pages with a page break after every page but the last. */
  function WithBreaks(cs: seq<string>): seq<string>
  {
    if |cs| <= 1 then cs else [cs[0], PageBreak] + WithBreaks(cs[1..])
  }

  /** `_generate_main_content`: the pages in order, separated by page
      breaks, joined by blank lines; a page that fails fails the document. */
  function MainContent(d: ParsedDocument, paths: seq<string>, g: Generator): Option<string>
  {
    var pages := RenderAll(PageNumbers(d.PageCount()), PageRenderer(d, paths, g));
    if pages.None? then None else Some(Join("\n\n", WithBreaks(pages.value)))
  }

  /** Pages and breaks alternate, pages at the even places. */
  lemma {:induction false} WithBreaksShape(cs: seq<string>)
    requires cs != []
    ensures |WithBreaks(cs)| == 2 * |cs| - 1
    ensures forall i :: 0 <= i < |WithBreaks(cs)| ==>
              WithBreaks(cs)[i] == if i % 2 == 0 then cs[i / 2] else PageBreak
  {
    if |cs| > 1 {
      WithBreaksShape(cs[1..]);
      var w := WithBreaks(cs);
      forall i | 0 <= i < |w| ensures w[i] == if i % 2 == 0 then cs[i / 2] else PageBreak {
        if i >= 2 {
          assert w[i] == WithBreaks(cs[1..])[i - 2];
          assert (i - 2) % 2 == i % 2 && (i - 2) / 2 == i / 2 - 1;
        }
      }
    }
  }

  /** The main content is the pages joined by a page break between blank
      lines. */
  lemma {:induction false} JoinWithBreaks(cs: seq<string>)
    ensures Join("\n\n", WithBreaks(cs)) == Join("\n\n" + PageBreak + "\n\n", cs)
  {
    if |cs| > 1 {
      JoinWithBreaks(cs[1..]);
      var rest := WithBreaks(cs[1..]);
      assert WithBreaks(cs) == [cs[0]] + ([PageBreak] + rest);
      assert ([PageBreak] + rest)[1..] == rest;
      assert rest != [] by { WithBreaksShape(cs[1..]); }
      assert Join("\n\n", [PageBreak] + rest) == PageBreak + "\n\n" + Join("\n\n", rest);
      assert Join("\n\n", WithBreaks(cs)) == cs[0] + "\n\n" + Join("\n\n", [PageBreak] + rest);
    }
  }

  /** The main content fails exactly when one of its pages does. */
  lemma MainContentFails(d: ParsedDocument, paths: seq<string>, g: Generator)
    ensures MainContent(d, paths, g).None? <==>
              exists p :: 1 <= p <= d.PageCount() && PageContent(d, p, paths, g).None?
  {
    var render := PageRenderer(d, paths, g);
    NumberedRenderFails(d.PageCount(), render);
    assert forall p :: render(p) == PageContent(d, p, paths, g);
  }

  /** Rendering the page numbers 1 to n fails exactly when some page fails. */
  lemma NumberedRenderFails(n: nat, render: int -> Option<string>)
    ensures RenderAll(PageNumbers(n), render).None? <==> exists p :: 1 <= p <= n && render(p).None?
  {
    var numbers := PageNumbers(n);
    if RenderAll(numbers, render).None? {
      var p :| p in numbers && render(p).None?;
    }
    if exists p :: 1 <= p <= n && render(p).None? {
      var p :| 1 <= p <= n && render(p).None?;
      assert numbers[p - 1] == p;
    }
  }

  /** A page as the generator renders it. */
  method GeneratePage(d: ParsedDocument, p: int, paths: seq<string>, g: Generator) returns (r: Option<string>)
    ensures r == PageContent(d, p, paths, g)
  {
    if g.cfg.preserveLayout {
      r := GeneratePageWithLayout(d, p, paths, g);
    } else {
      var s := GeneratePageSimple(d, p, paths, g);
      r := Some(s);
    }
  }

  /** Adding one more page: a break, then the page. */
  lemma WithBreaksSnoc(cs: seq<string>, c: string)
    requires cs != []
    ensures WithBreaks(cs + [c]) == WithBreaks(cs) + [PageBreak, c]
  {
    WithBreaksShape(cs);
    WithBreaksShape(cs + [c]);
    assert |WithBreaks(cs + [c])| == |WithBreaks(cs) + [PageBreak, c]|;
    forall i | 0 <= i < |WithBreaks(cs + [c])|
      ensures WithBreaks(cs + [c])[i] == (WithBreaks(cs) + [PageBreak, c])[i]
    {
      if i < |WithBreaks(cs)| {
        assert i / 2 < |cs|;
      }
    }
  }

  /** What the page loop has collected after the pages `cs` of `n`. */
  function PartsAfter(cs: seq<string>, n: nat): seq<string>
  {
    if cs == [] then [] else WithBreaks(cs) + if |cs| < n then [PageBreak] else []
  }

  lemma PartsAfterSnoc(cs: seq<string>, c: string, n: nat, parts: seq<string>)
    requires |cs| < n && parts == PartsAfter(cs, n)
    ensures PartsAfter(cs + [c], n) == parts + [c] + if n > 1 && |cs| + 1 < n then [PageBreak] else []
  {
    if cs != [] {
      WithBreaksSnoc(cs, c);
    }
  }

  /** One more item rendered: the prefix rendering grows by it. */
  lemma RenderPrefixStep<T>(items: seq<T>, i: int, cs: seq<string>, render: T -> Option<string>)
    requires 0 <= i < |items| && RenderAll(items[..i], render) == Some(cs) && render(items[i]).Some?
    ensures RenderAll(items[..i + 1], render) == Some(cs + [render(items[i]).value])
  {
    assert items[..i + 1] == items[..i] + [items[i]];
    RenderAllSnoc(items[..i], items[i], render);
  }

  /** The loop of `_generate_main_content` over the pages: each page, then
      a page break unless it is the last. */
  method RenderWithBreaks<T>(items: seq<T>, render: T -> Option<string>) returns (r: Option<seq<string>>)
    ensures RenderAll(items, render).None? ==> r.None?
    ensures RenderAll(items, render).Some? ==> r == Some(WithBreaks(RenderAll(items, render).value))
  {
    var n := |items|;
    ghost var cs: seq<string> := [];
    var parts: seq<string> := [];
    var i := 0;
    while i < n
      invariant 0 <= i <= n
      invariant RenderAll(items[..i], render) == Some(cs)
      invariant |cs| == i && parts == PartsAfter(cs, n)
    {
      var page := render(items[i]);
      if page.None? {
        assert items[i] in items;
        return None;
      }
      RenderPrefixStep(items, i, cs, render);
      PartsAfterSnoc(cs, page.value, n, parts);
      cs := cs + [page.value];
      parts := parts + [page.value];
      if n > 1 && i + 1 < n {
        parts := parts + [PageBreak];
      }
      i := i + 1;
    }
    assert items[..i] == items;
    assert WithBreaks(cs) + [] == WithBreaks(cs);
    r := Some(parts);
  }

  /** `_generate_main_content`. */
  method GenerateMainContent(d: ParsedDocument, paths: seq<string>, g: Generator) returns (r: Option<string>)
    ensures r == MainContent(d, paths, g)
  {
    var parts := RenderWithBreaks(PageNumbers(d.PageCount()), PageRenderer(d, paths, g));
    r := if parts.None? then None else Some(Join("\n\n", parts.value));
  }
}
