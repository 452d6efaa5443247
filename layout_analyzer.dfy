/** The page layout analyzer: the elements of one page in a single
    "absolute" region, and the multi-column machinery (position clustering,
    column bands, header and footer splitting), the text-wrap test, margins
    and page-relative positions. */
module LayoutAnalyzer {
  import opened Text
  import opened Seqs
  import opened Models

  // ---------------------------------------------------------------- config

  const ColumnGapThreshold: real := 20.0
  const ColumnAlignmentTolerance: real := 10.0
  const HeaderHeightThreshold: real := 100.0
  const FooterHeightThreshold: real := 80.0
  const TextWrapThreshold: real := 20.0

  /** The A4 size in points used when a page has no elements. */
  const DefaultPageWidth: real := 595.0
  const DefaultPageHeight: real := 842.0

  // ------------------------------------------------------------ data model

  /** A `(element_type, element)` pair of the analyzer: the constructor is
      the type tag. */
  datatype Element =
    | HeadingEl(heading: Heading)
    | ParagraphEl(paragraph: Paragraph)
    | TableEl(table: Table)
    | ImageEl(image: Image)
    | ListEl(docList: DocList)
  {
    function Box(): BoundingBox
    {
      match this
      case HeadingEl(h) => h.bbox
      case ParagraphEl(p) => p.bbox
      case TableEl(t) => t.bbox
      case ImageEl(m) => m.bbox
      case ListEl(l) => l.bbox
    }

    function Page(): int
    {
      match this
      case HeadingEl(h) => h.page
      case ParagraphEl(p) => p.page
      case TableEl(t) => t.page
      case ImageEl(m) => m.page
      case ListEl(l) => l.page
    }
  }

  function X0Of(e: Element): real { e.Box().x0 }
  function X1Of(e: Element): real { e.Box().x1 }
  function Y0Of(e: Element): real { e.Box().y0 }
  function Y1Of(e: Element): real { e.Box().y1 }

  /** The region types the analyzer produces. */
  datatype RegionType = ColumnRegion | HeaderRegion | FooterRegion | AbsoluteRegion

  datatype LayoutRegion = LayoutRegion(bbox: BoundingBox, elements: seq<Element>,
                                       regionType: RegionType, columnIndex: int)

  datatype Margins = Margins(top: real, bottom: real, left: real, right: real)

  datatype PageLayout = PageLayout(pageNum: int, pageWidth: real, pageHeight: real,
                                   regions: seq<LayoutRegion>, columnCount: int,
                                   hasHeader: bool, hasFooter: bool, margins: Margins)

  // ------------------------------------------------------------- elements

  /** `_collect_all_elements`: headings, then paragraphs, tables, images and
      lists, each kind in its own order; text blocks are not collected. */
  function CollectAllElements(pe: PageElements): seq<Element>
  {
    Map(pe.headings, (h: Heading) => HeadingEl(h)) + Map(pe.paragraphs, (p: Paragraph) => ParagraphEl(p))
    + Map(pe.tables, (t: Table) => TableEl(t)) + Map(pe.images, (m: Image) => ImageEl(m))
    + Map(pe.lists, (l: DocList) => ListEl(l))
  }

  /** The collected elements, position by position: all headings first,
      then all paragraphs, tables, images and lists, nothing else. */
  lemma CollectAllElementsOrder(pe: PageElements)
    ensures var r := CollectAllElements(pe);
      && |r| == |pe.headings| + |pe.paragraphs| + |pe.tables| + |pe.images| + |pe.lists|
      && (forall i :: 0 <= i < |pe.headings| ==> r[i] == HeadingEl(pe.headings[i]))
      && (forall i :: 0 <= i < |pe.paragraphs| ==> r[|pe.headings| + i] == ParagraphEl(pe.paragraphs[i]))
      && (forall i :: 0 <= i < |pe.tables| ==> r[|pe.headings| + |pe.paragraphs| + i] == TableEl(pe.tables[i]))
      && (forall i :: 0 <= i < |pe.images| ==>
            r[|pe.headings| + |pe.paragraphs| + |pe.tables| + i] == ImageEl(pe.images[i]))
      && (forall i :: 0 <= i < |pe.lists| ==>
            r[|pe.headings| + |pe.paragraphs| + |pe.tables| + |pe.images| + i] == ListEl(pe.lists[i]))
  {
  }

  // ------------------------------------------------------------ page size

  /** The size `_estimate_page_size_from_elements` computes: the largest
      right and bottom edges (from 0) plus 50, or the A4 size when there are
      no elements or an edge maximum is not positive. */
  function EstimatedSize(all: seq<Element>): (real, real)
  {
    if all == [] then (DefaultPageWidth, DefaultPageHeight)
    else
      var maxX := MaxOver(0.0, all, X1Of);
      var maxY := MaxOver(0.0, all, Y1Of);
      (if maxX > 0.0 then maxX + 50.0 else DefaultPageWidth,
       if maxY > 0.0 then maxY + 50.0 else DefaultPageHeight)
  }

  /** The estimated page leaves a margin of at least 50 beyond every
      element's right and bottom edge. */
  lemma EstimatedSizeCovers(all: seq<Element>)
    ensures forall i :: 0 <= i < |all| ==>
              all[i].Box().x1 + 50.0 <= EstimatedSize(all).0 && all[i].Box().y1 + 50.0 <= EstimatedSize(all).1
    ensures EstimatedSize(all).0 >= 50.0 && EstimatedSize(all).1 >= 50.0
  {
    if all != [] {
      var maxX := MaxOver(0.0, all, X1Of);
      var maxY := MaxOver(0.0, all, Y1Of);
      assert forall i :: 0 <= i < |all| ==> X1Of(all[i]) <= maxX && Y1Of(all[i]) <= maxY;
    }
  }

  /** `_estimate_page_size_from_elements`: the running maxima of the right
      and bottom edges, then 50 added. */
  method EstimatePageSize(pe: PageElements) returns (width: real, height: real)
    ensures (width, height) == EstimatedSize(CollectAllElements(pe))
  {
    width, height := EstimateSizeOf(CollectAllElements(pe));
  }

  method EstimateSizeOf(all: seq<Element>) returns (width: real, height: real)
    ensures (width, height) == EstimatedSize(all)
  {
    if all == [] {
      return DefaultPageWidth, DefaultPageHeight;
    }
    var maxX, maxY := EdgeMaxima(all);
    width := if maxX > 0.0 then maxX + 50.0 else DefaultPageWidth;
    height := if maxY > 0.0 then maxY + 50.0 else DefaultPageHeight;
  }

  /** The loop of `_estimate_page_size_from_elements`. */
  method EdgeMaxima(all: seq<Element>) returns (maxX: real, maxY: real)
    ensures maxX == MaxOver(0.0, all, X1Of) && maxY == MaxOver(0.0, all, Y1Of)
  {
    maxX := 0.0;
    maxY := 0.0;
    for i := 0 to |all|
      invariant maxX == MaxOver(0.0, all[..i], X1Of)
      invariant maxY == MaxOver(0.0, all[..i], Y1Of)
    {
      var b := all[i].Box();
      assert all[..i + 1][..i] == all[..i];
      maxX := if b.x1 > maxX then b.x1 else maxX;
      maxY := if b.y1 > maxY then b.y1 else maxY;
    }
    assert all[..|all|] == all;
  }

  /** The first page entry with the given number. */
  function FirstPageInfo(pages: seq<PageInfo>, p: int): (r: Option<PageInfo>)
    ensures r.Some? <==> exists i :: 0 <= i < |pages| && pages[i].number == p
    ensures r.Some? ==> exists i :: 0 <= i < |pages| && pages[i] == r.value
                          && r.value.number == p && forall k :: 0 <= k < i ==> pages[k].number != p
  {
    if pages == [] then None
    else if pages[0].number == p then Some(pages[0])
    else
      var r := FirstPageInfo(pages[1..], p);
      assert forall i :: 1 <= i < |pages| ==> pages[i] == pages[1..][i - 1];
      if r.Some? then
        var i :| 0 <= i < |pages[1..]| && pages[1..][i] == r.value && r.value.number == p
                 && forall k :: 0 <= k < i ==> pages[1..][k].number != p;
        assert pages[i + 1] == r.value;
        r
      else r
  }

  /** `_get_real_page_size`: the size of the first page entry with the page's
      number, else the size estimated from the page's elements. */
  method GetRealPageSize(d: ParsedDocument, p: int) returns (width: real, height: real)
    ensures FirstPageInfo(d.pages, p).Some? ==>
              width == FirstPageInfo(d.pages, p).value.width && height == FirstPageInfo(d.pages, p).value.height
    ensures FirstPageInfo(d.pages, p).None? ==>
              (width, height) == EstimatedSize(CollectAllElements(GetElementsByPage(d, p)))
  {
    for i := 0 to |d.pages|
      invariant forall k :: 0 <= k < i ==> d.pages[k].number != p
    {
      if d.pages[i].number == p {
        var r := FirstPageInfo(d.pages, p);
        var j :| 0 <= j < |d.pages| && d.pages[j] == r.value && r.value.number == p
                 && forall k :: 0 <= k < j ==> d.pages[k].number != p;
        assert j == i;
        return d.pages[i].width, d.pages[i].height;
      }
    }
    width, height := EstimatePageSize(GetElementsByPage(d, p));
  }

  // ------------------------------------------------------- absolute layout

  /** `_get_element_sort_key`: `(-y0, x0)`. */
  function ElementSortKey(e: Element): Key
  {
    Key(-e.Box().y0, e.Box().x0, 0.0)
  }

  /** Sorted by the element key means: larger `y0` first, and among equal
      `y0` smaller `x0` first. */
  lemma SortKeyOrder(s: seq<Element>, i: int, j: int)
    requires SortedBy(s, ElementSortKey) && 0 <= i < j < |s|
    ensures s[i].Box().y0 >= s[j].Box().y0
    ensures s[i].Box().y0 == s[j].Box().y0 ==> s[i].Box().x0 <= s[j].Box().x0
  {
    assert KeyLe(ElementSortKey(s[i]), ElementSortKey(s[j]));
  }

  /** `_create_absolute_layout`: no region for no elements, otherwise one
      full-page "absolute" region holding every element in key order. */
  function CreateAbsoluteLayout(elements: seq<Element>, w: real, h: real): (r: seq<LayoutRegion>)
    ensures elements == [] <==> r == []
    ensures elements != [] ==>
              && |r| == 1
              && r[0].bbox == BoundingBox(0.0, 0.0, w, h)
              && r[0].regionType == AbsoluteRegion && r[0].columnIndex == 0
              && multiset(r[0].elements) == multiset(elements)
              && SortedBy(r[0].elements, ElementSortKey)
  {
    if elements == [] then []
    else [LayoutRegion(BoundingBox(0.0, 0.0, w, h), SortByKey(elements, ElementSortKey), AbsoluteRegion, 0)]
  }

  /** `_analyze_element_relationships`: sorts each region's elements by the
      element key; the text-wrap pass that follows changes nothing (see
      `TextWrapPairs`). */
  method AnalyzeElementRelationships(regions: seq<LayoutRegion>) returns (r: seq<LayoutRegion>)
    ensures |r| == |regions|
    ensures forall i :: 0 <= i < |regions| ==>
              r[i] == regions[i].(elements := SortByKey(regions[i].elements, ElementSortKey))
  {
    r := regions;
    for i := 0 to |regions|
      invariant |r| == |regions|
      invariant forall k :: 0 <= k < i ==>
                  r[k] == regions[k].(elements := SortByKey(regions[k].elements, ElementSortKey))
      invariant forall k :: i <= k < |regions| ==> r[k] == regions[k]
    {
      r := r[i := r[i].(elements := SortByKey(r[i].elements, ElementSortKey))];
    }
  }

  /** Re-sorting the absolute layout changes nothing. */
  lemma AbsoluteLayoutIsSorted(elements: seq<Element>, w: real, h: real, i: int)
    requires 0 <= i < |CreateAbsoluteLayout(elements, w, h)|
    ensures SortByKey(CreateAbsoluteLayout(elements, w, h)[i].elements, ElementSortKey)
            == CreateAbsoluteLayout(elements, w, h)[i].elements
  {
    SortTwice(elements, ElementSortKey);
  }

  /** Re-sorting the absolute layout's regions changes nothing, and none of
      them is a header or footer. */
  lemma AbsoluteLayoutResorted(elements: seq<Element>, w: real, h: real, r: seq<LayoutRegion>)
    requires |r| == |CreateAbsoluteLayout(elements, w, h)|
    requires forall i :: 0 <= i < |r| ==>
               r[i] == CreateAbsoluteLayout(elements, w, h)[i].(elements :=
                         SortByKey(CreateAbsoluteLayout(elements, w, h)[i].elements, ElementSortKey))
    ensures r == CreateAbsoluteLayout(elements, w, h)
    ensures forall i :: 0 <= i < |r| ==> r[i].regionType == AbsoluteRegion
  {
    if r != [] {
      AbsoluteLayoutIsSorted(elements, w, h, 0);
    }
  }

  /** The size `_get_real_page_size` settles on for page `p`. */
  function PageSize(d: ParsedDocument, p: int): (real, real)
  {
    var info := FirstPageInfo(d.pages, p);
    if info.Some? then (info.value.width, info.value.height)
    else EstimatedSize(CollectAllElements(GetElementsByPage(d, p)))
  }

  /** The layout `analyze_page_layout` returns for page `p`. */
  function AnalyzedLayout(d: ParsedDocument, p: int): PageLayout
  {
    var size := PageSize(d, p);
    var all := CollectAllElements(GetElementsByPage(d, p));
    PageLayout(p, size.0, size.1, CreateAbsoluteLayout(all, size.0, size.1), 1, false, false,
               MarginsOf(all, size.0, size.1))
  }

  /** `analyze_page_layout`: the page's elements in one absolute region of
      the page's size, a single column, no header or footer, and the margins
      of all the page's elements. */
  method AnalyzePageLayout(d: ParsedDocument, p: int) returns (layout: PageLayout)
    ensures layout.pageNum == p && layout.columnCount == 1
    ensures !layout.hasHeader && !layout.hasFooter
    ensures CollectAllElements(GetElementsByPage(d, p)) == [] <==> layout.regions == []
    ensures layout.regions != [] ==>
              && |layout.regions| == 1
              && layout.regions[0].regionType == AbsoluteRegion
              && layout.regions[0].bbox == BoundingBox(0.0, 0.0, layout.pageWidth, layout.pageHeight)
              && multiset(layout.regions[0].elements) == multiset(CollectAllElements(GetElementsByPage(d, p)))
              && SortedBy(layout.regions[0].elements, ElementSortKey)
    ensures layout.margins == MarginsOf(CollectAllElements(GetElementsByPage(d, p)), layout.pageWidth, layout.pageHeight)
    ensures layout == AnalyzedLayout(d, p)
  {
    var w, h := GetRealPageSize(d, p);
    var all := CollectAllElements(GetElementsByPage(d, p));
    layout := LayoutOfElements(p, w, h, all);
  }

  /** The body of `analyze_page_layout` once the page's size and elements
      are known. */
  method LayoutOfElements(p: int, w: real, h: real, all: seq<Element>) returns (layout: PageLayout)
    ensures layout.pageNum == p && layout.pageWidth == w && layout.pageHeight == h && layout.columnCount == 1
    ensures !layout.hasHeader && !layout.hasFooter
    ensures layout.regions == CreateAbsoluteLayout(all, w, h)
    ensures layout.margins == MarginsOf(all, w, h)
  {
    var regions := CreateAbsoluteLayout(all, w, h);
    var sortedRegions := AnalyzeElementRelationships(regions);
    AbsoluteLayoutResorted(all, w, h, sortedRegions);
    var margins := CalculateMargins(all, w, h);
    layout := PageLayout(p, w, h, sortedRegions, 1,
                         exists i :: 0 <= i < |sortedRegions| && sortedRegions[i].regionType == HeaderRegion,
                         exists i :: 0 <= i < |sortedRegions| && sortedRegions[i].regionType == FooterRegion,
                         margins);
  }

  // ------------------------------------------------------------ clustering

  function Ascending(x: real): Key
  {
    Key(x, 0.0, 0.0)
  }

  /** `x` lies within the alignment tolerance of some cluster. */
  predicate Near(x: real, clusters: seq<real>)
  {
    exists k :: 0 <= k < |clusters| && Abs(x - clusters[k]) <= ColumnAlignmentTolerance
  }

  /** The clusters `_cluster_positions` has built after the positions `ps`
      (in creation order): a position starts a cluster unless it lies within
      the tolerance of an existing one. */
  function Clusters(ps: seq<real>): seq<real>
    decreases |ps|
  {
    if ps == [] then []
    else
      var c := Clusters(ps[..|ps| - 1]);
      if Near(ps[|ps| - 1], c) then c else c + [ps[|ps| - 1]]
  }

  /** One more position either joins an existing cluster or opens one. */
  lemma ClustersStep(ps: seq<real>, x: real)
    ensures Clusters(ps + [x]) == if Near(x, Clusters(ps)) then Clusters(ps) else Clusters(ps) + [x]
  {
    assert (ps + [x])[..|ps|] == ps;
  }

  /** Every position is near some cluster. */
  lemma {:induction false} ClustersCover(ps: seq<real>)
    ensures forall j :: 0 <= j < |ps| ==> Near(ps[j], Clusters(ps))
    decreases |ps|
  {
    if ps != [] {
      var init, x := ps[..|ps| - 1], ps[|ps| - 1];
      assert ps == init + [x];
      ClustersCover(init);
      ClustersStep(init, x);
      var c := Clusters(init);
      if !Near(x, c) {
        forall j | 0 <= j < |ps| ensures Near(ps[j], c + [x]) {
          if j < |init| {
            var k :| 0 <= k < |c| && Abs(init[j] - c[k]) <= ColumnAlignmentTolerance;
            assert (c + [x])[k] == c[k];
          } else {
            assert (c + [x])[|c|] == x;
          }
        }
      }
    }
  }

  /** Every cluster is one of the positions, and the first position opens
      the first cluster. */
  lemma {:induction false} ClustersFromInput(ps: seq<real>)
    ensures forall k :: 0 <= k < |Clusters(ps)| ==> Clusters(ps)[k] in ps
    ensures ps != [] ==> Clusters(ps) != [] && Clusters(ps)[0] == ps[0]
    decreases |ps|
  {
    if ps != [] {
      var init, x := ps[..|ps| - 1], ps[|ps| - 1];
      assert ps == init + [x];
      ClustersFromInput(init);
      ClustersStep(init, x);
      var c := Clusters(init);
      forall k | 0 <= k < |Clusters(ps)| ensures Clusters(ps)[k] in ps {
        if k < |c| {
          assert Clusters(ps)[k] == c[k] && c[k] in init;
        } else {
          assert Clusters(ps)[k] == x;
        }
      }
      if init == [] {
        assert c == [];
      } else {
        assert Clusters(ps)[0] == c[0];
      }
    }
  }

  /** Clusters are pairwise more than the tolerance apart. */
  lemma {:induction false} ClustersSeparated(ps: seq<real>)
    ensures forall a, b :: 0 <= a < b < |Clusters(ps)| ==>
              Abs(Clusters(ps)[a] - Clusters(ps)[b]) > ColumnAlignmentTolerance
    decreases |ps|
  {
    if ps != [] {
      var init, x := ps[..|ps| - 1], ps[|ps| - 1];
      assert ps == init + [x];
      ClustersSeparated(init);
      ClustersStep(init, x);
    }
  }

  /** `_cluster_positions`: the clusters, sorted. */
  function ClusterResult(ps: seq<real>): seq<real>
  {
    SortByKey(Clusters(ps), Ascending)
  }

  /** The sorted clusters are ascending and hold the same values as the
      clusters. */
  lemma ClusterResultSorted(ps: seq<real>)
    ensures forall a, b :: 0 <= a < b < |ClusterResult(ps)| ==> ClusterResult(ps)[a] <= ClusterResult(ps)[b]
    ensures forall x :: x in ClusterResult(ps) <==> x in Clusters(ps)
  {
    var c := Clusters(ps);
    var r := ClusterResult(ps);
    forall x ensures x in r <==> x in c {
      assert x in r <==> x in multiset(r);
      assert x in c <==> x in multiset(c);
    }
    forall a, b | 0 <= a < b < |r| ensures r[a] <= r[b] {
      assert KeyLe(Ascending(r[a]), Ascending(r[b]));
    }
  }

  /** The sorted clusters are drawn from the input and include the first
      position. */
  lemma ClusterResultFromInput(ps: seq<real>)
    ensures forall x :: x in ClusterResult(ps) ==> x in ps
    ensures ps != [] ==> ps[0] in ClusterResult(ps)
  {
    ClusterResultSorted(ps);
    ClustersFromInput(ps);
    var c := Clusters(ps);
    forall x | x in c ensures x in ps {
      var k :| 0 <= k < |c| && c[k] == x;
    }
    if ps != [] {
      assert c[0] in c;
    }
  }

  /** Every position is within the tolerance of a sorted cluster. */
  lemma ClusterResultCovers(ps: seq<real>)
    ensures forall j :: 0 <= j < |ps| ==> Near(ps[j], ClusterResult(ps))
  {
    var c := Clusters(ps);
    var r := ClusterResult(ps);
    ClusterResultSorted(ps);
    ClustersCover(ps);
    forall j | 0 <= j < |ps| ensures Near(ps[j], r) {
      var k :| 0 <= k < |c| && Abs(ps[j] - c[k]) <= ColumnAlignmentTolerance;
      assert c[k] in c;
      var m :| 0 <= m < |r| && r[m] == c[k];
    }
  }

  /** Distinct sorted clusters are more than the tolerance apart. */
  lemma ClusterResultSeparated(ps: seq<real>)
    ensures forall x, y :: x in ClusterResult(ps) && y in ClusterResult(ps) && x != y ==>
              Abs(x - y) > ColumnAlignmentTolerance
  {
    ClusterResultSorted(ps);
    ClustersSeparated(ps);
    SeparatedValues(Clusters(ps));
  }

  /** Pairwise separated positions: any two distinct values are separated. */
  lemma SeparatedValues(c: seq<real>)
    requires forall a, b :: 0 <= a < b < |c| ==> Abs(c[a] - c[b]) > ColumnAlignmentTolerance
    ensures forall x, y :: x in c && y in c && x != y ==> Abs(x - y) > ColumnAlignmentTolerance
  {
    forall x, y | x in c && y in c && x != y ensures Abs(x - y) > ColumnAlignmentTolerance {
      var a :| 0 <= a < |c| && c[a] == x;
      var b :| 0 <= b < |c| && c[b] == y;
      if a > b {
        assert Abs(c[b] - c[a]) > ColumnAlignmentTolerance;
      }
    }
  }

  /** `_cluster_positions`: the first position opens a cluster; each later
      position opens a new one unless an existing cluster lies within the
      tolerance; the clusters are returned sorted. */
  method ClusterPositions(positions: seq<real>) returns (r: seq<real>)
    ensures r == ClusterResult(positions)
  {
    if positions == [] {
      return [];
    }
    var clusters := [positions[0]];
    assert positions[..1] == [] + [positions[0]];
    ClustersStep([], positions[0]);
    for idx := 1 to |positions|
      invariant clusters == Clusters(positions[..idx])
    {
      var pos := positions[idx];
      var found := FindNearCluster(pos, clusters);
      assert positions[..idx + 1] == positions[..idx] + [pos];
      ClustersStep(positions[..idx], pos);
      if !found {
        clusters := clusters + [pos];
      }
    }
    assert positions[..|positions|] == positions;
    r := SortByKey(clusters, Ascending);
  }

  /** The inner loop of `_cluster_positions`: whether some cluster lies
      within the tolerance of the position, stopping at the first. */
  method FindNearCluster(pos: real, clusters: seq<real>) returns (found: bool)
    ensures found <==> Near(pos, clusters)
  {
    found := false;
    var i := 0;
    while i < |clusters| && !found
      invariant 0 <= i <= |clusters|
      invariant found <==> i > 0 && Abs(pos - clusters[i - 1]) <= ColumnAlignmentTolerance
      invariant !found ==> forall k :: 0 <= k < i ==> Abs(pos - clusters[k]) > ColumnAlignmentTolerance
    {
      if Abs(pos - clusters[i]) <= ColumnAlignmentTolerance {
        found := true;
      }
      i := i + 1;
    }
  }

  /** The clusters of the sorted positions 58, 60, 62, 318, 320 are 58 and 318. */
  lemma ClusterExample(a: real, b: real, c: real, d: real, e: real)
    requires a == 58.0 && b == 60.0 && c == 62.0 && d == 318.0 && e == 320.0
    ensures Clusters([a, b, c, d, e]) == [a, d]
  {
    ClusterExampleStart(a, b, c);
    ClusterOpen([a, b, c], d, [a]);
    assert [a, b, c] + [d] == [a, b, c, d];
    ClusterJoin([a, b, c, d], e, [a, d], 1);
    assert [a, b, c, d] + [e] == [a, b, c, d, e];
  }

  lemma ClusterExampleStart(a: real, b: real, c: real)
    requires a == 58.0 && b == 60.0 && c == 62.0
    ensures Clusters([a, b, c]) == [a]
  {
    ClusterOpen([], a, []);
    assert [] + [a] == [a];
    ClusterJoin([a], b, [a], 0);
    assert [a] + [b] == [a, b];
    ClusterJoin([a, b], c, [a], 0);
    assert [a, b] + [c] == [a, b, c];
  }

  /** A position within the tolerance of cluster `j` opens no cluster. */
  lemma ClusterJoin(ps: seq<real>, x: real, c: seq<real>, j: int)
    requires Clusters(ps) == c && 0 <= j < |c|
    requires Abs(x - c[j]) <= ColumnAlignmentTolerance
    ensures Clusters(ps + [x]) == c
  {
    ClustersStep(ps, x);
  }

  /** A position farther than the tolerance from every cluster opens one. */
  lemma ClusterOpen(ps: seq<real>, x: real, c: seq<real>)
    requires Clusters(ps) == c
    requires forall j :: 0 <= j < |c| ==> Abs(x - c[j]) > ColumnAlignmentTolerance
    ensures Clusters(ps + [x]) == c + [x]
  {
    ClustersStep(ps, x);
  }

  // --------------------------------------------------------------- columns

  /** The right end of column band `i`: half a gap before the next band's
      start, or the page width for the last band. */
  function BandEnd(starts: seq<real>, i: int, w: real): real
    requires 0 <= i < |starts|
  {
    if i < |starts| - 1 then starts[i + 1] - ColumnGapThreshold / 2.0 else w
  }

  predicate InBand(starts: seq<real>, i: int, w: real, x: real)
    requires 0 <= i < |starts|
  {
    starts[i] <= x < BandEnd(starts, i, w)
  }

  /** The region of band `i`, as `_detect_columns` builds it. */
  function BandRegion(elements: seq<Element>, starts: seq<real>, i: int, w: real, h: real): LayoutRegion
    requires 0 <= i < |starts|
  {
    LayoutRegion(BoundingBox(starts[i], 0.0, BandEnd(starts, i, w), h),
                 Filter(elements, (e: Element) => InBand(starts, i, w, e.Box().x0)),
                 ColumnRegion, i)
  }

  /** The regions of bands 0..n-1 that hold at least one element. */
  function BandRegions(elements: seq<Element>, starts: seq<real>, n: int, w: real, h: real): seq<LayoutRegion>
    requires 0 <= n <= |starts|
  {
    if n == 0 then []
    else
      var prev := BandRegions(elements, starts, n - 1, w, h);
      var reg := BandRegion(elements, starts, n - 1, w, h);
      if reg.elements != [] then prev + [reg] else prev
  }

  /** Each band region is the non-empty region of its band, and the bands
      appear in increasing order. */
  lemma {:induction false} BandRegionsShape(elements: seq<Element>, starts: seq<real>, n: int, w: real, h: real)
    requires 0 <= n <= |starts|
    ensures var r := BandRegions(elements, starts, n, w, h);
      && |r| <= n
      && (forall k :: 0 <= k < |r| ==>
            && 0 <= r[k].columnIndex < n
            && r[k] == BandRegion(elements, starts, r[k].columnIndex, w, h)
            && r[k].elements != [])
      && (forall a, b :: 0 <= a < b < |r| ==> r[a].columnIndex < r[b].columnIndex)
  {
    if n > 0 {
      BandRegionsShape(elements, starts, n - 1, w, h);
      var prev := BandRegions(elements, starts, n - 1, w, h);
      var reg := BandRegion(elements, starts, n - 1, w, h);
      if reg.elements != [] {
        assert (prev + [reg])[|prev|] == reg;
      }
    }
  }

  /** Every band holding an element has its region. */
  lemma {:induction false} BandRegionsComplete(elements: seq<Element>, starts: seq<real>, n: int, w: real, h: real, i: int)
    requires 0 <= i < n <= |starts|
    requires BandRegion(elements, starts, i, w, h).elements != []
    ensures exists k :: 0 <= k < |BandRegions(elements, starts, n, w, h)| && BandRegions(elements, starts, n, w, h)[k].columnIndex == i
  {
    var prev := BandRegions(elements, starts, n - 1, w, h);
    if i < n - 1 {
      BandRegionsComplete(elements, starts, n - 1, w, h, i);
      var k :| 0 <= k < |prev| && prev[k].columnIndex == i;
      assert BandRegions(elements, starts, n, w, h)[k] == prev[k];
    } else {
      assert BandRegions(elements, starts, n, w, h)[|prev|].columnIndex == i;
    }
  }

  /** The regions `_detect_columns` returns. */
  function ColumnLayout(elements: seq<Element>, w: real, h: real): seq<LayoutRegion>
  {
    if elements == [] then []
    else
      var starts := ClusterResult(SortByKey(Map(elements, X0Of), Ascending));
      if |starts| <= 1 then [LayoutRegion(BoundingBox(0.0, 0.0, w, h), elements, ColumnRegion, 0)]
      else BandRegions(elements, starts, |starts|, w, h)
  }

  /** Bands over ascending starts are disjoint, so no position falls in two. */
  lemma BandsDisjoint(starts: seq<real>, w: real, x: real, i: int, j: int)
    requires forall a, b :: 0 <= a < b < |starts| ==> starts[a] <= starts[b]
    requires 0 <= i < |starts| && 0 <= j < |starts|
    requires InBand(starts, i, w, x) && InBand(starts, j, w, x)
    ensures i == j
  {
  }

  /** The bands do not cover the page: a position between a band's end and
      the next start falls in no band. Positions 0, 8 and 15 cluster into the
      starts 0 and 15, whose bands are [0, 5) and [15, w), so an element at
      x0 = 8 is in no column region. */
  lemma BandsLeaveGaps(ps: seq<real>, w: real)
    requires |ps| == 3 && ps[0] == 0.0 && ps[1] == 8.0 && ps[2] == 15.0 && w > 15.0
    ensures Clusters(ps) == [0.0, 15.0]
    ensures !InBand(Clusters(ps), 0, w, 8.0) && !InBand(Clusters(ps), 1, w, 8.0)
  {
    var a, b, c := ps[0], ps[1], ps[2];
    ClusterOpen([], a, []);
    assert [] + [a] == [a];
    ClusterJoin([a], b, [a], 0);
    assert [a] + [b] == [a, b];
    ClusterOpen([a, b], c, [a]);
    assert ps == [a, b] + [c];
  }

  /** `_detect_columns`: clusters the sorted left edges; one cluster gives a
      single full-page column, otherwise each non-empty band becomes a column
      region holding the elements whose left edge lies in it. */
  method DetectColumns(elements: seq<Element>, w: real, h: real) returns (regions: seq<LayoutRegion>)
    ensures regions == ColumnLayout(elements, w, h)
  {
    if elements == [] {
      return [];
    }
    var xs := LeftEdges(elements);
    xs := SortByKey(xs, Ascending);
    var starts := ClusterPositions(xs);
    if |starts| <= 1 {
      return [LayoutRegion(BoundingBox(0.0, 0.0, w, h), elements, ColumnRegion, 0)];
    }
    regions := ColumnRegions(elements, starts, w, h);
  }

  /** The band loop of `_detect_columns`. */
  method ColumnRegions(elements: seq<Element>, starts: seq<real>, w: real, h: real)
    returns (regions: seq<LayoutRegion>)
    ensures regions == BandRegions(elements, starts, |starts|, w, h)
  {
    regions := [];
    for i := 0 to |starts|
      invariant regions == BandRegions(elements, starts, i, w, h)
    {
      var startX := starts[i];
      var endX := if i < |starts| - 1 then starts[i + 1] - ColumnGapThreshold / 2.0 else w;
      var columnElements := BandElements(elements, starts, i, w);
      if columnElements != [] {
        regions := regions + [LayoutRegion(BoundingBox(startX, 0.0, endX, h), columnElements, ColumnRegion, i)];
      }
    }
  }

  /** The first loop of `_detect_columns`: the left edges, in order. */
  method LeftEdges(elements: seq<Element>) returns (xs: seq<real>)
    ensures xs == Map(elements, X0Of)
  {
    xs := [];
    for i := 0 to |elements|
      invariant xs == Map(elements[..i], X0Of)
    {
      MapAppend(elements[..i], [elements[i]], X0Of);
      assert elements[..i + 1] == elements[..i] + [elements[i]];
      xs := xs + [elements[i].Box().x0];
    }
    assert elements[..|elements|] == elements;
  }

  /** The inner loop of `_detect_columns`: the elements whose left edge lies
      in band `i`, in order. */
  method BandElements(elements: seq<Element>, starts: seq<real>, i: int, w: real) returns (columnElements: seq<Element>)
    requires 0 <= i < |starts|
    ensures columnElements == Filter(elements, (e: Element) => InBand(starts, i, w, e.Box().x0))
  {
    var inBand := (e: Element) => InBand(starts, i, w, e.Box().x0);
    var startX := starts[i];
    var endX := if i < |starts| - 1 then starts[i + 1] - ColumnGapThreshold / 2.0 else w;
    columnElements := [];
    for k := 0 to |elements|
      invariant columnElements == Filter(elements[..k], inBand)
    {
      var e := elements[k];
      FilterAppend(elements[..k], [e], inBand);
      FilterSingle(e, inBand);
      assert elements[..k + 1] == elements[..k] + [e];
      if startX <= e.Box().x0 < endX {
        columnElements := columnElements + [e];
      }
    }
    assert elements[..|elements|] == elements;
  }

  // ------------------------------------------------------- special regions

  /** An element starting above the line `y` (the header test). */
  function StartsAbove(y: real): Element -> bool { (e: Element) => e.Box().y0 > y }
  function NotStartsAbove(y: real): Element -> bool { (e: Element) => !(e.Box().y0 > y) }
  /** An element ending below the line `y` (the footer test). */
  function EndsBelow(y: real): Element -> bool { (e: Element) => e.Box().y1 < y }
  function NotEndsBelow(y: real): Element -> bool { (e: Element) => !(e.Box().y1 < y) }

  /** Two candidate regions, each kept only when it holds elements. */
  function NonEmptyOf(first: LayoutRegion, second: LayoutRegion): seq<LayoutRegion>
  {
    (if first.elements != [] then [first] else []) + (if second.elements != [] then [second] else [])
  }

  /** Dropping empty candidates loses no element and keeps only non-empty
      regions, in order. */
  lemma NonEmptyOfElements(first: LayoutRegion, second: LayoutRegion)
    ensures var out := NonEmptyOf(first, second);
      && multiset(AllElements(out)) == multiset(first.elements) + multiset(second.elements)
      && |out| <= 2
      && (forall k :: 0 <= k < |out| ==> out[k].elements != [] && (out[k] == first || out[k] == second))
  {
    if first.elements != [] && second.elements != [] {
      AllElementsConcat([first], [second]);
      assert NonEmptyOf(first, second) == [first] + [second];
      AllElementsSingle(first);
      AllElementsSingle(second);
    } else if first.elements != [] {
      AllElementsSingle(first);
    } else if second.elements != [] {
      AllElementsSingle(second);
    } else {
      assert Map(NonEmptyOf(first, second), RegionElements) == [];
    }
  }

  /** The regions one region becomes in `_detect_special_regions`: a region
      starting above the header line gives its header elements and the rest,
      a region ending below the footer line its footer elements and the rest
      (each part only when non-empty); any other region is kept as it is. */
  function SplitSpecial(r: LayoutRegion, h: real): seq<LayoutRegion>
  {
    var headerY := h - HeaderHeightThreshold;
    var footerY := FooterHeightThreshold;
    if r.bbox.y0 > headerY then
      NonEmptyOf(LayoutRegion(BoundingBox(r.bbox.x0, headerY, r.bbox.x1, h),
                              Filter(r.elements, StartsAbove(headerY)), HeaderRegion, r.columnIndex),
                 LayoutRegion(BoundingBox(r.bbox.x0, r.bbox.y0, r.bbox.x1, headerY),
                              Filter(r.elements, NotStartsAbove(headerY)), ColumnRegion, r.columnIndex))
    else if r.bbox.y1 < footerY then
      NonEmptyOf(LayoutRegion(BoundingBox(r.bbox.x0, 0.0, r.bbox.x1, footerY),
                              Filter(r.elements, EndsBelow(footerY)), FooterRegion, r.columnIndex),
                 LayoutRegion(BoundingBox(r.bbox.x0, footerY, r.bbox.x1, r.bbox.y1),
                              Filter(r.elements, NotEndsBelow(footerY)), ColumnRegion, r.columnIndex))
    else [r]
  }

  function RegionElements(r: LayoutRegion): seq<Element> { r.elements }

  /** All elements of a region list, region by region. */
  function AllElements(rs: seq<LayoutRegion>): seq<Element>
  {
    Flatten(Map(rs, RegionElements))
  }

  lemma AllElementsSingle(r: LayoutRegion)
    ensures AllElements([r]) == r.elements
  {
    assert Map([r], RegionElements) == [r.elements];
    assert Flatten([r.elements]) == r.elements + Flatten([r.elements][1..]);
  }

  lemma AllElementsConcat(a: seq<LayoutRegion>, b: seq<LayoutRegion>)
    ensures AllElements(a + b) == AllElements(a) + AllElements(b)
  {
    MapAppend(a, b, RegionElements);
    FlattenConcat(Map(a, RegionElements), Map(b, RegionElements));
  }

  /** Splitting by a test and its negation loses no element. */
  lemma SplitByPartition(r: LayoutRegion, p: Element -> bool, q: Element -> bool, first: LayoutRegion, second: LayoutRegion)
    requires forall e :: q(e) == !p(e)
    requires first.elements == Filter(r.elements, p) && second.elements == Filter(r.elements, q)
    ensures multiset(AllElements(NonEmptyOf(first, second))) == multiset(r.elements)
  {
    FilterComplement(r.elements, p, q);
    NonEmptyOfElements(first, second);
  }

  /** Splitting a region keeps exactly its elements, in at most two regions. */
  lemma SplitSpecialPartition(r: LayoutRegion, h: real)
    ensures multiset(AllElements(SplitSpecial(r, h))) == multiset(r.elements)
    ensures |SplitSpecial(r, h)| <= 2
  {
    var headerY := h - HeaderHeightThreshold;
    var footerY := FooterHeightThreshold;
    if r.bbox.y0 > headerY {
      var first := LayoutRegion(BoundingBox(r.bbox.x0, headerY, r.bbox.x1, h),
                                Filter(r.elements, StartsAbove(headerY)), HeaderRegion, r.columnIndex);
      var second := LayoutRegion(BoundingBox(r.bbox.x0, r.bbox.y0, r.bbox.x1, headerY),
                                 Filter(r.elements, NotStartsAbove(headerY)), ColumnRegion, r.columnIndex);
      SplitByPartition(r, StartsAbove(headerY), NotStartsAbove(headerY), first, second);
      assert SplitSpecial(r, h) == NonEmptyOf(first, second);
    } else if r.bbox.y1 < footerY {
      var first := LayoutRegion(BoundingBox(r.bbox.x0, 0.0, r.bbox.x1, footerY),
                                Filter(r.elements, EndsBelow(footerY)), FooterRegion, r.columnIndex);
      var second := LayoutRegion(BoundingBox(r.bbox.x0, footerY, r.bbox.x1, r.bbox.y1),
                                 Filter(r.elements, NotEndsBelow(footerY)), ColumnRegion, r.columnIndex);
      SplitByPartition(r, EndsBelow(footerY), NotEndsBelow(footerY), first, second);
      assert SplitSpecial(r, h) == NonEmptyOf(first, second);
    } else {
      AllElementsSingle(r);
    }
  }

  /** Every piece of a column or absolute region keeps the region's column;
      a header piece holds only elements above the header line and a footer
      piece only elements below the footer line. */
  lemma SplitSpecialPieces(r: LayoutRegion, h: real)
    requires r.regionType == ColumnRegion || r.regionType == AbsoluteRegion
    ensures forall k :: 0 <= k < |SplitSpecial(r, h)| ==>
              && SplitSpecial(r, h)[k].columnIndex == r.columnIndex
              && (SplitSpecial(r, h)[k].regionType == HeaderRegion ==>
                    forall e :: e in SplitSpecial(r, h)[k].elements ==> e.Box().y0 > h - HeaderHeightThreshold)
              && (SplitSpecial(r, h)[k].regionType == FooterRegion ==>
                    forall e :: e in SplitSpecial(r, h)[k].elements ==> e.Box().y1 < FooterHeightThreshold)
  {
    var headerY := h - HeaderHeightThreshold;
    var footerY := FooterHeightThreshold;
    if r.bbox.y0 > headerY {
      var first := LayoutRegion(BoundingBox(r.bbox.x0, headerY, r.bbox.x1, h),
                                Filter(r.elements, StartsAbove(headerY)), HeaderRegion, r.columnIndex);
      var second := LayoutRegion(BoundingBox(r.bbox.x0, r.bbox.y0, r.bbox.x1, headerY),
                                 Filter(r.elements, NotStartsAbove(headerY)), ColumnRegion, r.columnIndex);
      NonEmptyOfElements(first, second);
      FilterMembers(r.elements, StartsAbove(headerY));
      assert forall e :: e in first.elements ==> StartsAbove(headerY)(e);
      assert SplitSpecial(r, h) == NonEmptyOf(first, second);
    } else if r.bbox.y1 < footerY {
      var first := LayoutRegion(BoundingBox(r.bbox.x0, 0.0, r.bbox.x1, footerY),
                                Filter(r.elements, EndsBelow(footerY)), FooterRegion, r.columnIndex);
      var second := LayoutRegion(BoundingBox(r.bbox.x0, footerY, r.bbox.x1, r.bbox.y1),
                                 Filter(r.elements, NotEndsBelow(footerY)), ColumnRegion, r.columnIndex);
      NonEmptyOfElements(first, second);
      FilterMembers(r.elements, EndsBelow(footerY));
      assert forall e :: e in first.elements ==> EndsBelow(footerY)(e);
      assert SplitSpecial(r, h) == NonEmptyOf(first, second);
    }
  }

  function Splitter(h: real): LayoutRegion -> seq<LayoutRegion>
  {
    (r: LayoutRegion) => SplitSpecial(r, h)
  }

  /** The regions `_detect_special_regions` returns. */
  function SpecialLayout(regions: seq<LayoutRegion>, h: real): seq<LayoutRegion>
  {
    Flatten(Map(regions, Splitter(h)))
  }

  lemma SpecialLayoutAppend(init: seq<LayoutRegion>, r: LayoutRegion, h: real)
    ensures SpecialLayout(init + [r], h) == SpecialLayout(init, h) + SplitSpecial(r, h)
  {
    MapAppend(init, [r], Splitter(h));
    assert Map([r], Splitter(h)) == [SplitSpecial(r, h)];
    FlattenAppend(Map(init, Splitter(h)), SplitSpecial(r, h));
  }

  /** Header and footer splitting is a partition: the output regions hold
      exactly the input elements. */
  lemma {:induction false} SpecialLayoutPartition(regions: seq<LayoutRegion>, h: real)
    ensures multiset(AllElements(SpecialLayout(regions, h))) == multiset(AllElements(regions))
  {
    if regions == [] {
      assert Map(regions, Splitter(h)) == [];
      assert Map(regions, RegionElements) == [];
    } else {
      var init := regions[..|regions| - 1];
      var last := regions[|regions| - 1];
      assert regions == init + [last];
      SpecialLayoutPartition(init, h);
      SpecialLayoutAppend(init, last, h);
      AllElementsConcat(SpecialLayout(init, h), SplitSpecial(last, h));
      AllElementsConcat(init, [last]);
      AllElementsSingle(last);
      SplitSpecialPartition(last, h);
    }
  }

  /** `_detect_special_regions`, region by region. */
  method DetectSpecialRegions(regions: seq<LayoutRegion>, h: real) returns (result: seq<LayoutRegion>)
    ensures result == SpecialLayout(regions, h)
  {
    result := [];
    for i := 0 to |regions|
      invariant result == SpecialLayout(regions[..i], h)
    {
      var pieces := SplitRegion(regions[i], h);
      SpecialLayoutAppend(regions[..i], regions[i], h);
      assert regions[..i + 1] == regions[..i] + [regions[i]];
      result := result + pieces;
    }
    assert regions[..|regions|] == regions;
  }

  /** One region of `_detect_special_regions`. */
  method SplitRegion(region: LayoutRegion, h: real) returns (pieces: seq<LayoutRegion>)
    ensures pieces == SplitSpecial(region, h)
  {
    var headerY := h - HeaderHeightThreshold;
    var footerY := FooterHeightThreshold;
    var b := region.bbox;
    if b.y0 > headerY {
      var headerElements, mainElements := SplitElements(region.elements, StartsAbove(headerY), NotStartsAbove(headerY));
      pieces := KeepNonEmpty(LayoutRegion(BoundingBox(b.x0, headerY, b.x1, h), headerElements, HeaderRegion, region.columnIndex),
                             LayoutRegion(BoundingBox(b.x0, b.y0, b.x1, headerY), mainElements, ColumnRegion, region.columnIndex));
    } else if b.y1 < footerY {
      var footerElements, mainElements := SplitElements(region.elements, EndsBelow(footerY), NotEndsBelow(footerY));
      pieces := KeepNonEmpty(LayoutRegion(BoundingBox(b.x0, 0.0, b.x1, footerY), footerElements, FooterRegion, region.columnIndex),
                             LayoutRegion(BoundingBox(b.x0, footerY, b.x1, b.y1), mainElements, ColumnRegion, region.columnIndex));
    } else {
      pieces := [region];
    }
  }

  /** The two appends of `_detect_special_regions`, each only for a region
      that holds elements. */
  method KeepNonEmpty(first: LayoutRegion, second: LayoutRegion) returns (pieces: seq<LayoutRegion>)
    ensures pieces == NonEmptyOf(first, second)
  {
    pieces := [];
    if first.elements != [] {
      pieces := pieces + [first];
    }
    if second.elements != [] {
      pieces := pieces + [second];
    }
  }

  /** The inner loop of `_detect_special_regions`: each element goes to the
      first list when it passes the test, else to the second. */
  method SplitElements(elements: seq<Element>, p: Element -> bool, q: Element -> bool)
    returns (yes: seq<Element>, no: seq<Element>)
    requires forall e :: q(e) == !p(e)
    ensures yes == Filter(elements, p) && no == Filter(elements, q)
  {
    yes := [];
    no := [];
    for k := 0 to |elements|
      invariant yes == Filter(elements[..k], p) && no == Filter(elements[..k], q)
    {
      var e := elements[k];
      FilterSnoc(elements, k, p);
      FilterSnoc(elements, k, q);
      if p(e) {
        yes := yes + [e];
      } else {
        no := no + [e];
      }
    }
    assert elements[..|elements|] == elements;
  }

  // ------------------------------------------------------------ text wrap

  /** `_is_text_wrapping_image`: the text's right edge is within 20 of the
      image's left edge or the image's right edge within 20 of the text's
      left edge, and the vertical ranges meet once the image's is widened by
      20 on each side. */
  predicate IsTextWrappingImage(text: BoundingBox, image: BoundingBox)
  {
    && (Abs(text.x1 - image.x0) < TextWrapThreshold || Abs(image.x1 - text.x0) < TextWrapThreshold)
    && !(text.y1 < image.y0 - TextWrapThreshold || text.y0 > image.y1 + TextWrapThreshold)
  }

  /** The test as intervals: an edge in an open 40-wide window around the
      other box's facing edge, and overlapping widened vertical ranges. */
  lemma TextWrappingAsIntervals(text: BoundingBox, image: BoundingBox)
    ensures IsTextWrappingImage(text, image) <==>
              && ((image.x0 - 20.0 < text.x1 < image.x0 + 20.0) || (text.x0 - 20.0 < image.x1 < text.x0 + 20.0))
              && image.y0 - 20.0 <= text.y1 && text.y0 <= image.y1 + 20.0
  {
  }

  predicate IsTextElement(e: Element)
  {
    e.ParagraphEl? || e.HeadingEl?
  }

  /** The (image index, text index) pairs `_analyze_text_wrapping` would mark,
      image by image. No element type has a `wraps_around` attribute, so the
      source marks nothing and the region is left unchanged. */
  method TextWrapPairs(region: LayoutRegion) returns (pairs: seq<(int, int)>)
    ensures forall i, j :: (i, j) in pairs <==>
              && 0 <= i < |region.elements| && 0 <= j < |region.elements|
              && region.elements[i].ImageEl? && IsTextElement(region.elements[j])
              && IsTextWrappingImage(region.elements[j].Box(), region.elements[i].Box())
  {
    var els := region.elements;
    pairs := [];
    for i := 0 to |els|
      invariant forall a, b :: (a, b) in pairs <==>
                  && 0 <= a < i && 0 <= b < |els| && els[a].ImageEl? && IsTextElement(els[b])
                  && IsTextWrappingImage(els[b].Box(), els[a].Box())
    {
      if els[i].ImageEl? {
        for j := 0 to |els|
          invariant forall a, b :: (a, b) in pairs <==>
                      && 0 <= a < |els| && 0 <= b < |els| && els[a].ImageEl? && IsTextElement(els[b])
                      && IsTextWrappingImage(els[b].Box(), els[a].Box())
                      && (a < i || (a == i && b < j))
        {
          if IsTextElement(els[j]) && IsTextWrappingImage(els[j].Box(), els[i].Box()) {
            pairs := pairs + [(i, j)];
          }
        }
      }
    }
  }

  // --------------------------------------------------------------- margins

  /** The margins `_calculate_margins` returns: 50 on every side for no
      elements; otherwise the running extremes started from the page
      (min from the page size, max from 0). */
  function MarginsOf(elements: seq<Element>, w: real, h: real): Margins
  {
    if elements == [] then Margins(50.0, 50.0, 50.0, 50.0)
    else
      Margins(h - MaxOver(0.0, elements, Y1Of), MinOver(h, elements, Y0Of),
              MinOver(w, elements, X0Of), w - MaxOver(0.0, elements, X1Of))
  }

  /** Every element lies inside the margins: between `left` and `w - right`
      across, between `bottom` and `h - top` up. */
  lemma MarginsEnclose(elements: seq<Element>, w: real, h: real, i: int)
    requires 0 <= i < |elements|
    ensures MarginsOf(elements, w, h).left <= elements[i].Box().x0
    ensures elements[i].Box().x1 <= w - MarginsOf(elements, w, h).right
    ensures MarginsOf(elements, w, h).bottom <= elements[i].Box().y0
    ensures elements[i].Box().y1 <= h - MarginsOf(elements, w, h).top
  {
    assert X0Of(elements[i]) >= MinOver(w, elements, X0Of);
    assert X1Of(elements[i]) <= MaxOver(0.0, elements, X1Of);
    assert Y0Of(elements[i]) >= MinOver(h, elements, Y0Of);
    assert Y1Of(elements[i]) <= MaxOver(0.0, elements, Y1Of);
  }

  /** The margins are tight: each is set by some element, or by the page
      when every element overhangs it. */
  lemma MarginsAttained(elements: seq<Element>, w: real, h: real)
    requires elements != []
    ensures MarginsOf(elements, w, h).left == w
            || exists i :: 0 <= i < |elements| && elements[i].Box().x0 == MarginsOf(elements, w, h).left
    ensures MarginsOf(elements, w, h).right == w
            || exists i :: 0 <= i < |elements| && w - elements[i].Box().x1 == MarginsOf(elements, w, h).right
  {
    var mx := MaxOver(0.0, elements, X1Of);
    if mx != 0.0 {
      var i :| 0 <= i < |elements| && mx == X1Of(elements[i]);
      assert w - elements[i].Box().x1 == MarginsOf(elements, w, h).right;
    }
    var mn := MinOver(w, elements, X0Of);
    if mn != w {
      var i :| 0 <= i < |elements| && mn == X0Of(elements[i]);
      assert elements[i].Box().x0 == MarginsOf(elements, w, h).left;
    }
  }

  lemma MarginsOfWhole(elements: seq<Element>, w: real, h: real)
    requires elements != []
    ensures MarginsOf(elements, w, h) ==
              Margins(h - MaxOver(0.0, elements[..|elements|], Y1Of), MinOver(h, elements[..|elements|], Y0Of),
                      MinOver(w, elements[..|elements|], X0Of), w - MaxOver(0.0, elements[..|elements|], X1Of))
  {
    assert elements[..|elements|] == elements;
  }

  /** `_calculate_margins`: running minimum and maximum of the edges. */
  method CalculateMargins(elements: seq<Element>, w: real, h: real) returns (m: Margins)
    ensures m == MarginsOf(elements, w, h)
  {
    if elements == [] {
      return Margins(50.0, 50.0, 50.0, 50.0);
    }
    var minX, maxX, minY, maxY := w, 0.0, h, 0.0;
    for i := 0 to |elements|
      invariant minX == MinOver(w, elements[..i], X0Of) && maxX == MaxOver(0.0, elements[..i], X1Of)
      invariant minY == MinOver(h, elements[..i], Y0Of) && maxY == MaxOver(0.0, elements[..i], Y1Of)
    {
      var e := elements[i];
      OverSnoc(w, elements, i, X0Of);
      OverSnoc(0.0, elements, i, X1Of);
      OverSnoc(h, elements, i, Y0Of);
      OverSnoc(0.0, elements, i, Y1Of);
      minX := if X0Of(e) < minX then X0Of(e) else minX;
      maxX := if X1Of(e) > maxX then X1Of(e) else maxX;
      minY := if Y0Of(e) < minY then Y0Of(e) else minY;
      maxY := if Y1Of(e) > maxY then Y1Of(e) else maxY;
    }
    MarginsOfWhole(elements, w, h);
    m := Margins(h - maxY, minY, minX, w - maxX);
  }

  // ------------------------------------------------------ precise position

  datatype PrecisePosition = PrecisePosition(absX: real, absY: real, absWidth: real, absHeight: real,
                                             relX: real, relY: real, relWidth: real, relHeight: real)

  /** `get_element_precise_position`: the raw box and its position as
      percentages of the page, measuring `rel_y` from the page top. A zero
      page side makes the source divide by zero; that is `None` here. */
  function GetElementPrecisePosition(e: Element, layout: PageLayout): (r: Option<PrecisePosition>)
    ensures r.Some? <==> layout.pageWidth != 0.0 && layout.pageHeight != 0.0
  {
    var b := e.Box();
    var w, h := layout.pageWidth, layout.pageHeight;
    if w == 0.0 || h == 0.0 then None
    else
      Some(PrecisePosition(b.x0, b.y0, b.Width(), b.Height(),
                           b.x0 / w * 100.0, (h - b.y1) / h * 100.0,
                           b.Width() / w * 100.0, b.Height() / h * 100.0))
  }

  /** On a page with non-zero sides the position holds the raw box, and
      each relative value times the page side it is measured against is
      100 times the raw distance. */
  lemma PrecisePositionValues(e: Element, layout: PageLayout)
    requires layout.pageWidth != 0.0 && layout.pageHeight != 0.0
    ensures var r := GetElementPrecisePosition(e, layout).value;
            && r.absX == e.Box().x0 && r.absY == e.Box().y0
            && r.absWidth == e.Box().Width() && r.absHeight == e.Box().Height()
            && r.relX * layout.pageWidth == e.Box().x0 * 100.0
            && r.relY * layout.pageHeight == (layout.pageHeight - e.Box().y1) * 100.0
            && r.relWidth * layout.pageWidth == e.Box().Width() * 100.0
            && r.relHeight * layout.pageHeight == e.Box().Height() * 100.0
  {
  }

  /** A box inside the page has its relative left edge and right edge
      (left + width) within 0..100. */
  lemma PrecisePositionInPage(e: Element, layout: PageLayout)
    requires layout.pageWidth > 0.0 && layout.pageHeight > 0.0
    requires 0.0 <= e.Box().x0 <= e.Box().x1 <= layout.pageWidth
    requires 0.0 <= e.Box().y0 <= e.Box().y1 <= layout.pageHeight
    ensures var r := GetElementPrecisePosition(e, layout).value;
            && 0.0 <= r.relX && r.relX + r.relWidth <= 100.0
            && 0.0 <= r.relY <= 100.0
  {
    PrecisePositionValues(e, layout);
    var r := GetElementPrecisePosition(e, layout).value;
    var w, h := layout.pageWidth, layout.pageHeight;
    var b := e.Box();
    assert (r.relX + r.relWidth) * w == b.x1 * 100.0;
    assert b.x1 * 100.0 <= w * 100.0;
    ScaledBetween(r.relX + r.relWidth, w, b.x1 * 100.0);
    ScaledBetween(r.relX, w, b.x0 * 100.0);
    ScaledBetween(r.relY, h, (h - b.y1) * 100.0);
  }

  /** A value times a positive side that lies within 0..100 times that side
      lies within 0..100. */
  lemma ScaledBetween(x: real, side: real, scaled: real)
    requires side > 0.0 && x * side == scaled && 0.0 <= scaled <= side * 100.0
    ensures 0.0 <= x <= 100.0
  {
    assert (x - 100.0) * side <= 0.0;
  }
}
