/** The document model shared by the three stages: boxes, fonts, text blocks,
    tables, images, headings, paragraphs, lists, pages and the parsed document.
    Python's `__post_init__` normalisation is modelled by smart constructors. */
module Models {
  import opened Text
  import opened Seqs

  datatype ElementType =
    | TextElem | HeadingElem | ParagraphElem | TableElem | ImageElem | ListElem
    | QuoteElem | CodeElem | FormulaElem | FootnoteElem | ReferenceElem

  datatype TextStyle = Normal | Bold | Italic | Underline | Strikethrough

  /** A box in PDF units, origin bottom-left, y growing upwards. */
  datatype BoundingBox = BoundingBox(x0: real, y0: real, x1: real, y1: real)
  {
    function Width(): (w: real)
      ensures x0 + w == x1
    {
      x1 - x0
    }

    function Height(): (h: real)
      ensures y0 + h == y1
    {
      y1 - y0
    }

    /** The midpoint: equally far from both horizontal and both vertical edges. */
    function Center(): (c: (real, real))
      ensures c.0 - x0 == x1 - c.0 && c.1 - y0 == y1 - c.1
    {
      ((x0 + x1) / 2.0, (y0 + y1) / 2.0)
    }

    predicate Contains(b: BoundingBox)
    {
      x0 <= b.x0 && y0 <= b.y0 && b.x1 <= x1 && b.y1 <= y1
    }
  }

  function Abs(x: real): real
  {
    if x < 0.0 then -x else x
  }

  /** The smallest box containing both. */
  function Union(a: BoundingBox, b: BoundingBox): BoundingBox
  {
    BoundingBox(if a.x0 <= b.x0 then a.x0 else b.x0, if a.y0 <= b.y0 then a.y0 else b.y0,
                if a.x1 >= b.x1 then a.x1 else b.x1, if a.y1 >= b.y1 then a.y1 else b.y1)
  }

  /** The smallest box containing every box of a non-empty list:
      (min x0, min y0, max x1, max y1), each bound attained by one of the boxes. */
  function UnionAll(bs: seq<BoundingBox>): (b: BoundingBox)
    requires bs != []
    ensures forall i :: 0 <= i < |bs| ==> b.Contains(bs[i])
    ensures exists i :: 0 <= i < |bs| && bs[i].x0 == b.x0
    ensures exists i :: 0 <= i < |bs| && bs[i].y0 == b.y0
    ensures exists i :: 0 <= i < |bs| && bs[i].x1 == b.x1
    ensures exists i :: 0 <= i < |bs| && bs[i].y1 == b.y1
  {
    if |bs| == 1 then bs[0]
    else
      var rest := UnionAll(bs[1..]);
      assert forall i :: 1 <= i < |bs| ==> bs[i] == bs[1..][i - 1];
      Union(bs[0], rest)
  }

  datatype Color = Color(r: int, g: int, b: int)

  datatype FontInfo = FontInfo(name: string, size: real, color: Color, styles: seq<TextStyle>)

  /** `FontInfo(...)` after `__post_init__`: the style list is never empty. */
  function MakeFontInfo(name: string, size: real, color: Color, styles: seq<TextStyle>): (f: FontInfo)
    ensures f.name == name && f.size == size && f.color == color
    ensures |f.styles| > 0
    ensures styles != [] ==> f.styles == styles
    ensures styles == [] ==> f.styles == [Normal]
  {
    FontInfo(name, size, color, if styles == [] then [Normal] else styles)
  }

  datatype TextBlock = TextBlock(text: string, page: int, bbox: BoundingBox, font: FontInfo,
                                 elementType: ElementType, confidence: real)
  {
    predicate IsBold() { Bold in font.styles }
    predicate IsItalic() { Italic in font.styles }
  }

  /** `TextBlock(...)` after `__post_init__`: the text is stripped. */
  function MakeTextBlock(text: string, page: int, bbox: BoundingBox, font: FontInfo,
                         elementType: ElementType): (b: TextBlock)
    ensures b.text == [] || (!IsSpace(b.text[0]) && !IsSpace(b.text[|b.text| - 1]))
    ensures b.text == Strip(text) && b.page == page && b.bbox == bbox && b.font == font
    ensures b.elementType == elementType && b.confidence == 1.0
  {
    TextBlock(Strip(text), page, bbox, font, elementType, 1.0)
  }

  datatype TableCell = TableCell(text: string, row: int, col: int, rowspan: int, colspan: int,
                                 font: Option<FontInfo>)

  /** `TableCell(...)` after `__post_init__`: the text is stripped. */
  function MakeTableCell(text: string, row: int, col: int): (c: TableCell)
    ensures c.text == [] || (!IsSpace(c.text[0]) && !IsSpace(c.text[|c.text| - 1]))
    ensures c.text == Strip(text) && c.row == row && c.col == col
    ensures c.rowspan == 1 && c.colspan == 1 && c.font == None
  {
    TableCell(Strip(text), row, col, 1, 1, None)
  }

  datatype Table = Table(cells: seq<TableCell>, page: int, bbox: BoundingBox, rows: int, cols: int,
                         hasHeader: bool, tableType: string, confidence: real)

  predicate At(c: TableCell, row: int, col: int)
  {
    c.row == row && c.col == col
  }

  /** The first cell of the list at (row, col), if any. */
  function FirstCellAt(cells: seq<TableCell>, row: int, col: int): Option<TableCell>
  {
    if cells == [] then None
    else if At(cells[0], row, col) then Some(cells[0])
    else FirstCellAt(cells[1..], row, col)
  }

  /** `Table.get_cell`: the first cell in list order at (row, col), else none. */
  method GetCell(t: Table, row: int, col: int) returns (r: Option<TableCell>)
    ensures r.Some? ==> exists i :: 0 <= i < |t.cells| && t.cells[i] == r.value
                          && At(t.cells[i], row, col)
                          && forall j :: 0 <= j < i ==> !At(t.cells[j], row, col)
    ensures r.None? ==> forall i :: 0 <= i < |t.cells| ==> !At(t.cells[i], row, col)
    ensures r == FirstCellAt(t.cells, row, col)
  {
    var i := 0;
    while i < |t.cells|
      invariant 0 <= i <= |t.cells|
      invariant forall j :: 0 <= j < i ==> !At(t.cells[j], row, col)
      invariant FirstCellAt(t.cells, row, col) == FirstCellAt(t.cells[i..], row, col)
    {
      if At(t.cells[i], row, col) {
        return Some(t.cells[i]);
      }
      assert t.cells[i..][1..] == t.cells[i + 1..];
      i := i + 1;
    }
    return None;
  }

  /** The text `to_2d_array` leaves at (row, col): that of the LAST cell there, else "". */
  function CellTextAt(cells: seq<TableCell>, row: int, col: int): string
  {
    if cells == [] then ""
    else if At(cells[|cells| - 1], row, col) then cells[|cells| - 1].text
    else CellTextAt(cells[..|cells| - 1], row, col)
  }

  /** Python's `range(n)` has max(n, 0) elements. */
  function Count(n: int): nat
  {
    if n < 0 then 0 else n
  }

  /** `Table.to_2d_array`: a rows x cols grid of "" into which every cell inside
      the grid writes its text, later cells overwriting earlier ones. */
  method To2DArray(t: Table) returns (grid: seq<seq<string>>)
    ensures |grid| == Count(t.rows)
    ensures forall r :: 0 <= r < |grid| ==> |grid[r]| == Count(t.cols)
    ensures forall r, c :: 0 <= r < |grid| && 0 <= c < |grid[r]| ==> grid[r][c] == CellTextAt(t.cells, r, c)
  {
    var emptyRow := seq(Count(t.cols), _ => "");
    grid := seq(Count(t.rows), _ => emptyRow);
    for k := 0 to |t.cells|
      invariant |grid| == Count(t.rows)
      invariant forall r :: 0 <= r < |grid| ==> |grid[r]| == Count(t.cols)
      invariant forall r, c :: 0 <= r < |grid| && 0 <= c < |grid[r]| ==> grid[r][c] == CellTextAt(t.cells[..k], r, c)
    {
      var cell := t.cells[k];
      assert t.cells[..k + 1][..k] == t.cells[..k];
      if 0 <= cell.row < t.rows && 0 <= cell.col < t.cols {
        grid := grid[cell.row := grid[cell.row][cell.col := cell.text]];
      }
    }
    assert t.cells[..|t.cells|] == t.cells;
  }

  predicate UniquePositions(cells: seq<TableCell>)
  {
    forall i, j :: 0 <= i < j < |cells| ==> !(cells[i].row == cells[j].row && cells[i].col == cells[j].col)
  }

  /** When no two cells share a position, the grid and `get_cell` agree. */
  lemma {:induction false} GridAgreesWithGetCell(cells: seq<TableCell>, row: int, col: int)
    requires UniquePositions(cells)
    ensures CellTextAt(cells, row, col) == match FirstCellAt(cells, row, col)
                                          case Some(c) => c.text
                                          case None => ""
  {
    if cells != [] {
      var rest := cells[..|cells| - 1];
      assert UniquePositions(rest);
      GridAgreesWithGetCell(rest, row, col);
      FirstCellSplit(rest, cells[|cells| - 1], row, col);
      assert cells == rest + [cells[|cells| - 1]];
      if At(cells[|cells| - 1], row, col) {
        assert forall i :: 0 <= i < |rest| ==> !At(rest[i], row, col);
        FirstCellAbsent(rest, row, col);
      }
    }
  }

  lemma {:induction false} FirstCellAbsent(cells: seq<TableCell>, row: int, col: int)
    requires forall i :: 0 <= i < |cells| ==> !At(cells[i], row, col)
    ensures FirstCellAt(cells, row, col) == None
  {
    if cells != [] { FirstCellAbsent(cells[1..], row, col); }
  }

  lemma {:induction false} FirstCellSplit(cells: seq<TableCell>, last: TableCell, row: int, col: int)
    ensures FirstCellAt(cells + [last], row, col)
            == if FirstCellAt(cells, row, col).Some? then FirstCellAt(cells, row, col)
               else if At(last, row, col) then Some(last) else None
  {
    if cells != [] {
      assert (cells + [last])[1..] == cells[1..] + [last];
      FirstCellSplit(cells[1..], last, row, col);
    }
  }

  datatype Image = Image(data: seq<bv8>, page: int, bbox: BoundingBox, format: string,
                         filename: string, width: int, height: int)

  datatype Heading = Heading(text: string, level: int, page: int, bbox: BoundingBox,
                             font: FontInfo, numbering: Option<string>)

  function Clamp(lo: int, hi: int, x: int): int
    requires lo <= hi
  {
    if x < lo then lo else if x > hi then hi else x
  }

  /** `Heading(...)` after `__post_init__`: the level is clamped into 1..6. */
  function MakeHeading(text: string, level: int, page: int, bbox: BoundingBox, font: FontInfo,
                       numbering: Option<string>): (h: Heading)
    ensures 1 <= h.level <= 6
    ensures 1 <= level <= 6 ==> h.level == level
    ensures level < 1 ==> h.level == 1
    ensures level > 6 ==> h.level == 6
    ensures h.text == text && h.page == page && h.bbox == bbox && h.font == font && h.numbering == numbering
  {
    Heading(text, Clamp(1, 6, level), page, bbox, font, numbering)
  }

  datatype Alignment = Left | Center | Right | Justify

  datatype Paragraph = Paragraph(textBlocks: seq<TextBlock>, page: int, bbox: BoundingBox,
                                 alignment: Alignment, indent: real,
                                 spacingBefore: real, spacingAfter: real)

  function BlockTexts(blocks: seq<TextBlock>): (r: seq<string>)
    ensures |r| == |blocks| && forall i :: 0 <= i < |blocks| ==> r[i] == blocks[i].text
  {
    seq(|blocks|, i requires 0 <= i < |blocks| => blocks[i].text)
  }

  /** `Paragraph.text`: the block texts in order, separated by single spaces. */
  function ParagraphText(p: Paragraph): string
  {
    Join(" ", BlockTexts(p.textBlocks))
  }

  /** Appending a block appends a space and its text. */
  lemma ParagraphTextAppend(p: Paragraph, b: TextBlock)
    requires p.textBlocks != []
    ensures ParagraphText(p.(textBlocks := p.textBlocks + [b])) == ParagraphText(p) + " " + b.text
  {
    assert BlockTexts(p.textBlocks + [b]) == BlockTexts(p.textBlocks) + [b.text];
    JoinAppend(" ", BlockTexts(p.textBlocks), b.text);
  }

  datatype BulletKind = BulletMark | NumberMark | LetterMark

  datatype ListItem = ListItem(text: string, level: int, bulletType: BulletKind, page: int,
                               bbox: BoundingBox)

  datatype ListType = Ordered | Unordered

  datatype DocList = DocList(items: seq<ListItem>, page: int, bbox: BoundingBox, listType: ListType)

  datatype PageInfo = PageInfo(number: int, width: real, height: real, rotation: int)
  {
    /** Width over height, 1.0 for a degenerate height. */
    function AspectRatio(): (r: real)
      ensures height > 0.0 ==> r * height == width
      ensures height <= 0.0 ==> r == 1.0
    {
      if height > 0.0 then width / height else 1.0
    }
  }

  datatype DocumentMetadata = DocumentMetadata(title: Option<string>, author: Option<string>,
                                               creationDate: Option<string>, pages: int)

  datatype ParsedDocument = ParsedDocument(metadata: DocumentMetadata, pages: seq<PageInfo>,
                                           textBlocks: seq<TextBlock>, tables: seq<Table>,
                                           images: seq<Image>, headings: seq<Heading>,
                                           paragraphs: seq<Paragraph>, lists: seq<DocList>)
  {
    function PageCount(): nat { |pages| }
  }

  /** The result of `get_elements_by_page`, one list per kind. */
  datatype PageElements = PageElements(textBlocks: seq<TextBlock>, tables: seq<Table>,
                                       images: seq<Image>, headings: seq<Heading>,
                                       paragraphs: seq<Paragraph>, lists: seq<DocList>)

  /** The tests `element.page == p` of `get_elements_by_page`, one per kind. */
  function BlockOnPage(p: int): TextBlock -> bool { (b: TextBlock) => b.page == p }
  function TableOnPage(p: int): Table -> bool { (t: Table) => t.page == p }
  function ImageOnPage(p: int): Image -> bool { (m: Image) => m.page == p }
  function HeadingOnPage(p: int): Heading -> bool { (h: Heading) => h.page == p }
  function ParagraphOnPage(p: int): Paragraph -> bool { (q: Paragraph) => q.page == p }
  function ListOnPage(p: int): DocList -> bool { (l: DocList) => l.page == p }

  /** `ParsedDocument.get_elements_by_page`: per kind, the list comprehension
      keeping the elements on page `p`, in document order (`Filter` keeps
      order: it distributes over `+`); so each list holds exactly the
      document's elements of that kind on page `p`. */
  function GetElementsByPage(d: ParsedDocument, p: int): (r: PageElements)
    ensures r.textBlocks == Filter(d.textBlocks, BlockOnPage(p))
    ensures r.tables == Filter(d.tables, TableOnPage(p))
    ensures r.images == Filter(d.images, ImageOnPage(p))
    ensures r.headings == Filter(d.headings, HeadingOnPage(p))
    ensures r.paragraphs == Filter(d.paragraphs, ParagraphOnPage(p))
    ensures r.lists == Filter(d.lists, ListOnPage(p))
    ensures forall i :: 0 <= i < |r.textBlocks| ==> r.textBlocks[i].page == p && r.textBlocks[i] in d.textBlocks
    ensures forall x :: x in d.textBlocks && x.page == p ==> x in r.textBlocks
    ensures forall i :: 0 <= i < |r.tables| ==> r.tables[i].page == p && r.tables[i] in d.tables
    ensures forall x :: x in d.tables && x.page == p ==> x in r.tables
    ensures forall i :: 0 <= i < |r.images| ==> r.images[i].page == p && r.images[i] in d.images
    ensures forall x :: x in d.images && x.page == p ==> x in r.images
    ensures forall i :: 0 <= i < |r.headings| ==> r.headings[i].page == p && r.headings[i] in d.headings
    ensures forall x :: x in d.headings && x.page == p ==> x in r.headings
    ensures forall i :: 0 <= i < |r.paragraphs| ==> r.paragraphs[i].page == p && r.paragraphs[i] in d.paragraphs
    ensures forall x :: x in d.paragraphs && x.page == p ==> x in r.paragraphs
    ensures forall i :: 0 <= i < |r.lists| ==> r.lists[i].page == p && r.lists[i] in d.lists
    ensures forall x :: x in d.lists && x.page == p ==> x in r.lists
  {
    var onB, onT, onI := BlockOnPage(p), TableOnPage(p), ImageOnPage(p);
    var onH, onP, onL := HeadingOnPage(p), ParagraphOnPage(p), ListOnPage(p);
    FilterMembers(d.textBlocks, onB);
    FilterMembers(d.tables, onT);
    FilterMembers(d.images, onI);
    FilterMembers(d.headings, onH);
    FilterMembers(d.paragraphs, onP);
    FilterMembers(d.lists, onL);
    PageElements(Filter(d.textBlocks, onB), Filter(d.tables, onT), Filter(d.images, onI),
                 Filter(d.headings, onH), Filter(d.paragraphs, onP), Filter(d.lists, onL))
  }
}
