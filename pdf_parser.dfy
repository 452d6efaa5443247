/** The pure helpers of the PDF parser: grouping the characters pdfplumber
    reports into lines, their bounding box and font, PyMuPDF style flags, and
    the table-header heuristic. */
module PdfParser {
  import opened Text
  import opened Seqs
  import opened Models

  /** One character as reported by pdfplumber: its text, its vertical extent
      measured from the page top, its horizontal extent, and the optional
      `fontname` and `size` entries of its dictionary. */
  datatype PdfChar = PdfChar(text: string, top: real, bottom: real, x0: real, x1: real,
                             fontname: Option<string>, size: Option<real>)

  /** The sort key `(top, x0)`. */
  function CharKey(c: PdfChar): Key
  {
    Key(c.top, c.x0, 0.0)
  }

  /** `b` stays on the line whose last character is `a`: tops differ by at most 2. */
  predicate SameLine(a: PdfChar, b: PdfChar)
  {
    -2.0 <= b.top - a.top <= 2.0
  }

  /** `_group_chars_into_lines`: the characters in `(top, x0)` order, cut into
      lines exactly where a character's top is more than 2 away from the top of
      the character before it. */
  method GroupCharsIntoLines(chars: seq<PdfChar>) returns (lines: seq<seq<PdfChar>>)
    ensures chars == [] <==> lines == []
    ensures forall j :: 0 <= j < |lines| ==> IsChain(lines[j], SameLine)
    ensures ChainsBreakApart(lines, SameLine)
    ensures Flatten(lines) == SortByKey(chars, CharKey)
  {
    if chars == [] {
      return [];
    }
    var sorted := SortByKey(chars, CharKey);
    lines := SplitLines(sorted);
  }

  /** The loop of `_group_chars_into_lines` over the sorted characters; the
      reference top moves with each character. */
  method SplitLines(sorted: seq<PdfChar>) returns (lines: seq<seq<PdfChar>>)
    requires sorted != []
    ensures lines != []
    ensures forall j :: 0 <= j < |lines| ==> IsChain(lines[j], SameLine)
    ensures ChainsBreakApart(lines, SameLine)
    ensures Flatten(lines) == sorted
  {
    lines := [];
    var current: seq<PdfChar> := [];
    var currentY: Option<real> := None;
    for i := 0 to |sorted|
      invariant Flatten(lines) + current == sorted[..i]
      invariant Chaining(lines, current, SameLine)
      invariant i > 0 <==> current != []
      invariant currentY.Some? <==> current != []
      invariant currentY.Some? ==> currentY.value == current[|current| - 1].top
    {
      var c := sorted[i];
      if currentY.None? || (-2.0 <= c.top - currentY.value <= 2.0) {
        ChainingExtend(lines, current, c, SameLine);
        current := current + [c];
        currentY := Some(c.top);
      } else {
        if current != [] {
          ChainingBreak(lines, current, c, SameLine);
          FlattenAppend(lines, current);
          lines := lines + [current];
        }
        current := [c];
        currentY := Some(c.top);
      }
      assert sorted[..i + 1] == sorted[..i] + [c];
    }
    ChainingClose(lines, current, SameLine);
    FlattenAppend(lines, current);
    lines := lines + [current];
    assert sorted[..|sorted|] == sorted;
  }

  function CharBox(c: PdfChar): BoundingBox
  {
    BoundingBox(c.x0, c.top, c.x1, c.bottom)
  }

  /** `_calculate_bbox_from_chars`: (min x0, min top, max x1, max bottom), each
      bound attained by some character; (0,0,0,0) for no characters. */
  function CalculateBboxFromChars(cs: seq<PdfChar>): (b: BoundingBox)
    ensures cs == [] ==> b == BoundingBox(0.0, 0.0, 0.0, 0.0)
    ensures forall i :: 0 <= i < |cs| ==> b.Contains(CharBox(cs[i]))
    ensures cs != [] ==> exists i :: 0 <= i < |cs| && cs[i].x0 == b.x0
    ensures cs != [] ==> exists i :: 0 <= i < |cs| && cs[i].top == b.y0
    ensures cs != [] ==> exists i :: 0 <= i < |cs| && cs[i].x1 == b.x1
    ensures cs != [] ==> exists i :: 0 <= i < |cs| && cs[i].bottom == b.y1
  {
    if cs == [] then BoundingBox(0.0, 0.0, 0.0, 0.0)
    else
      var boxes := seq(|cs|, i requires 0 <= i < |cs| => CharBox(cs[i]));
      assert forall i :: 0 <= i < |cs| ==> boxes[i] == CharBox(cs[i]);
      UnionAll(boxes)
  }

  /** `'bold' in name.lower()` and `'italic' in name.lower()`. */
  predicate NamesBold(name: string) { Contains(Lower(name), "bold") }
  predicate NamesItalic(name: string) { Contains(Lower(name), "italic") }

  /** `_extract_font_info_from_chars`: the first character's font name (default
      "default") and size (default 12), black, and NORMAL followed by BOLD and
      ITALIC when the lower-cased name mentions them. */
  function ExtractFontInfoFromChars(cs: seq<PdfChar>): (f: FontInfo)
    ensures cs == [] ==> f == FontInfo("default", 12.0, Color(0, 0, 0), [Normal])
    ensures cs != [] ==> f.name == (if cs[0].fontname.Some? then cs[0].fontname.value else "default")
    ensures cs != [] ==> f.size == (if cs[0].size.Some? then cs[0].size.value else 12.0)
    ensures f.color == Color(0, 0, 0)
    ensures f.styles != [] && f.styles[0] == Normal && Normal !in f.styles[1..]
    ensures cs != [] ==> (Bold in f.styles <==> NamesBold(f.name))
    ensures cs != [] ==> (Italic in f.styles <==> NamesItalic(f.name))
    ensures Bold in f.styles && Italic in f.styles ==> f.styles == [Normal, Bold, Italic]
  {
    if cs == [] then MakeFontInfo("default", 12.0, Color(0, 0, 0), [Normal])
    else
      var name := if cs[0].fontname.Some? then cs[0].fontname.value else "default";
      var size := if cs[0].size.Some? then cs[0].size.value else 12.0;
      MakeFontInfo(name, size, Color(0, 0, 0), StyleList(NamesBold(name), NamesItalic(name)))
  }

  /** NORMAL, then BOLD when `bold`, then ITALIC when `italic`. */
  function StyleList(bold: bool, italic: bool): (s: seq<TextStyle>)
    ensures s != [] && s[0] == Normal && Normal !in s[1..]
    ensures Bold in s <==> bold
    ensures Italic in s <==> italic
    ensures bold && italic ==> s == [Normal, Bold, Italic]
  {
    [Normal] + (if bold then [Bold] else []) + (if italic then [Italic] else [])
  }

  /** Python's `flags & weight != 0` for a power of two `weight`, on Python's
      unbounded two's-complement integers (floor division, also for negatives). */
  predicate HasFlag(flags: int, weight: nat)
    requires weight > 0
  {
    (flags / weight) % 2 == 1
  }

  /** `_get_text_styles_from_flags`: NORMAL, then BOLD iff bit 16 is set, then
      ITALIC iff bit 2 is set. */
  function GetTextStylesFromFlags(flags: int): (s: seq<TextStyle>)
    ensures s != [] && s[0] == Normal && Normal !in s[1..]
    ensures Bold in s <==> HasFlag(flags, 16)
    ensures Italic in s <==> HasFlag(flags, 2)
    ensures Bold in s && Italic in s ==> s == [Normal, Bold, Italic]
  {
    StyleList(HasFlag(flags, 16), HasFlag(flags, 2))
  }

  /** The eight header indicators, in the source's order. */
  const HeaderIndicators: seq<string> := ["名称", "标题", "name", "title", "类型", "type", "编号", "id"]

  /** A cell of a pdfplumber table: `None` or a string. */
  type RawCell = Option<string>

  /** Python truthiness of a cell: not `None` and not "". */
  predicate Truthy(c: RawCell)
  {
    c.Some? && c.value != []
  }

  predicate LooksLikeHeader(c: RawCell)
  {
    Truthy(c) && exists k :: 0 <= k < |HeaderIndicators| && Contains(Lower(c.value), HeaderIndicators[k])
  }

  /** `_detect_table_header`: at least two rows, a non-empty first row, and some
      non-empty first-row cell whose lower-cased text contains an indicator. */
  method DetectTableHeader(rows: seq<seq<RawCell>>) returns (r: bool)
    ensures r <==> |rows| >= 2 && rows[0] != [] && exists j :: 0 <= j < |rows[0]| && LooksLikeHeader(rows[0][j])
  {
    if |rows| < 2 {
      return false;
    }
    var first := rows[0];
    if first == [] {
      return false;
    }
    for j := 0 to |first|
      invariant forall i :: 0 <= i < j ==> !LooksLikeHeader(first[i])
    {
      var cell := first[j];
      if cell.Some? && cell.value != [] {
        var lowered := Lower(cell.value);
        var found := false;
        for k := 0 to |HeaderIndicators|
          invariant found <==> exists m :: 0 <= m < k && Contains(lowered, HeaderIndicators[m])
        {
          if Contains(lowered, HeaderIndicators[k]) {
            found := true;
          }
        }
        if found {
          return true;
        }
      }
    }
    return false;
  }
}
