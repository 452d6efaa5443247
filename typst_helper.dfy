/** The dictionary-driven Typst emitter of the HTTP front end
    (`http_api/typst_helper.py`): the page-by-page document text built from
    session page data, the image-path repair, the caption extraction and the
    "enhanced" entry point that chains the two. */
module TypstHelper {
  import opened Text
  import opened Seqs

  // ------------------------------------------------- fix_image_paths_in_typst

  /** What a match of the pattern `image\("([^"]+)"` starts with. */
  const CallOpen: string := "image(\""

  /** Index of the first double quote of `t`. */
  function FirstQuote(t: string): (r: Option<nat>)
    ensures r.Some? ==> r.value < |t| && t[r.value] == '"' && forall j :: 0 <= j < r.value ==> t[j] != '"'
    ensures r.None? ==> forall j :: 0 <= j < |t| ==> t[j] != '"'
  {
    if t == [] then None
    else if t[0] == '"' then Some(0)
    else
      assert forall j :: 1 <= j < |t| ==> t[j] == t[1..][j - 1];
      match FirstQuote(t[1..])
      case None => None
      case Some(j) => Some(j + 1)
  }

  /** Where a match of the pattern that starts at the beginning of `s` ends:
      `image("`, one or more characters other than a quote, then a quote. */
  function CallEnd(s: string): (r: Option<nat>)
    ensures r.Some? ==> 9 <= r.value <= |s| && s[..7] == CallOpen && s[r.value - 1] == '"'
    ensures r.Some? ==> forall j :: 7 <= j < r.value - 1 ==> s[j] != '"'
  {
    if |s| >= 7 && s[..7] == CallOpen then
      match FirstQuote(s[7..])
      case Some(j) =>
        assert forall i :: 7 <= i < 7 + j ==> s[i] == s[7..][i - 7];
        assert s[7 + j] == s[7..][j];
        if j >= 1 then Some(8 + j) else None
      case None => None
    else None
  }

  /** The path captured by a match. */
  function CallPath(call: string): string
    requires |call| >= 8
  {
    call[7..|call| - 1]
  }

  /** `fix_path`: a path without a '/' is put under the image directory. */
  function FixCall(call: string, dir: string): string
    requires |call| >= 8
  {
    if '/' in CallPath(call) then call else CallOpen + dir + "/" + CallPath(call) + "\""
  }

  /** `fix_image_paths_in_typst`: `re.sub` scans left to right; at each
      position a match is replaced and the scan resumes after it, otherwise
      one character is copied. */
  function FixImagePaths(s: string, dir: string): string
    decreases |s|
  {
    match CallEnd(s)
    case Some(e) => FixCall(s[..e], dir) + FixImagePaths(s[e..], dir)
    case None => if s == [] then [] else [s[0]] + FixImagePaths(s[1..], dir)
  }

  predicate QuoteFree(s: string) { forall i :: 0 <= i < |s| ==> s[i] != '"' }

  /** The text of a call with the path `path`. */
  function Call(path: string): string { CallOpen + path + "\"" }

  lemma CallEndOfCall(path: string, rest: string)
    requires path != [] && QuoteFree(path)
    ensures CallEnd(Call(path) + rest) == Some(|Call(path)|)
    ensures (Call(path) + rest)[..|Call(path)|] == Call(path)
    ensures CallPath(Call(path)) == path
  {
    var s := Call(path) + rest;
    assert s[..7] == CallOpen;
    assert s[7..] == path + "\"" + rest;
    var q := FirstQuote(s[7..]);
    assert (path + "\"" + rest)[|path|] == '"';
    assert forall j :: 0 <= j < |path| ==> (path + "\"" + rest)[j] == path[j];
    assert s[..|Call(path)|] == Call(path);
  }

  /** A call at the start of the text: a path with a '/' is kept, a bare file
      name is put under `dir`, and the scan goes on after the call. */
  lemma FixCallAtStart(path: string, rest: string, dir: string)
    requires path != [] && QuoteFree(path)
    ensures FixImagePaths(Call(path) + rest, dir) ==
      (if '/' in path then Call(path) else Call(dir + "/" + path)) + FixImagePaths(rest, dir)
  {
    CallEndOfCall(path, rest);
    var s := Call(path) + rest;
    assert s[|Call(path)|..] == rest;
    if '/' !in path {
      assert CallOpen + dir + "/" + path + "\"" == Call(dir + "/" + path);
    }
  }

  /** Text without `image("` is left as it is. */
  lemma {:induction false} FixWithoutCalls(s: string, dir: string)
    requires !Contains(s, CallOpen)
    ensures FixImagePaths(s, dir) == s
    decreases |s|
  {
    if s != [] {
      if CallEnd(s).Some? {
        assert OccursAt(s, CallOpen, 0);
      }
      assert !Contains(s[1..], CallOpen) by {
        forall j | 0 <= j <= |s[1..]| && OccursAt(s[1..], CallOpen, j) ensures false {
          OccursShift(s, CallOpen, j + 1);
        }
      }
      FixWithoutCalls(s[1..], dir);
    }
  }

  /** The first `k <= 7` characters survive the fix: every call text, fixed
      or not, starts with `image("` as the original did. */
  lemma {:induction false} FixKeepsPrefix(x: string, dir: string, k: int)
    requires 0 <= k <= 7 && k <= |x|
    ensures k <= |FixImagePaths(x, dir)| && FixImagePaths(x, dir)[..k] == x[..k]
    decreases |x|
  {
    match CallEnd(x)
    case Some(e) =>
      var c := FixCall(x[..e], dir);
      assert x[..e][..7] == CallOpen;
      assert c[..7] == CallOpen;
      assert (c + FixImagePaths(x[e..], dir))[..k] == c[..k];
    case None =>
      if k > 0 {
        FixKeepsPrefix(x[1..], dir, k - 1);
        var t := FixImagePaths(x[1..], dir);
        assert ([x[0]] + t)[..k] == [x[0]] + t[..k - 1];
        assert x[..k] == [x[0]] + x[1..][..k - 1];
      }
  }

  /** Text with no quote from index 6 on holds no call (a call has its quote
      at index 6), so it is left as it is. */
  lemma {:induction false} FixWithoutLateQuotes(x: string, dir: string)
    requires forall j :: 6 <= j < |x| ==> x[j] != '"'
    ensures FixImagePaths(x, dir) == x
    decreases |x|
  {
    if x != [] {
      assert |x| >= 7 ==> x[..7][6] != '"';
      assert CallEnd(x).None?;
      FixWithoutLateQuotes(x[1..], dir);
    }
  }

  /** A call the fix produced: the path is not empty, holds no quote, and holds
      a '/'. */
  lemma FixCallShape(call: string, dir: string)
    requires |call| >= 9 && call[..7] == CallOpen && call[|call| - 1] == '"'
    requires forall j :: 7 <= j < |call| - 1 ==> call[j] != '"'
    requires QuoteFree(dir)
    ensures exists path :: path != [] && QuoteFree(path) && '/' in path && FixCall(call, dir) == Call(path)
  {
    var p := CallPath(call);
    assert call == Call(p);
    if '/' !in p {
      var q := dir + "/" + p;
      assert q[|dir|] == '/';
      assert forall i :: 0 <= i < |p| ==> q[|dir| + 1 + i] == p[i];
      assert QuoteFree(q);
      assert FixCall(call, dir) == Call(q);
    }
  }

  /** Where the scan finds no call, copying one character creates none either. */
  lemma NoNewCall(s: string, dir: string)
    requires s != [] && CallEnd(s).None?
    ensures CallEnd([s[0]] + FixImagePaths(s[1..], dir)).None?
  {
    if |s| >= 7 && s[..7] == CallOpen {
      NoNewCallAfterOpener(s, dir);
    } else if |s| >= 7 {
      NoNewCallWithoutOpener(s, dir);
    } else {
      FixWithoutLateQuotes(s[1..], dir);
      assert [s[0]] + s[1..] == s;
    }
  }

  /** Text that does not start with `image("` keeps its first seven
      characters. */
  lemma NoNewCallWithoutOpener(s: string, dir: string)
    requires |s| >= 7 && s[..7] != CallOpen
    ensures CallEnd([s[0]] + FixImagePaths(s[1..], dir)).None?
  {
    var out := [s[0]] + FixImagePaths(s[1..], dir);
    FixKeepsPrefix(s[1..], dir, 6);
    assert out[..7] == s[..7];
  }

  /** An opener that is not a match: either no quote follows it, and nothing
      after it changes, or the path is empty, and the first eight characters
      stay as they are. */
  lemma NoNewCallAfterOpener(s: string, dir: string)
    requires |s| >= 7 && s[..7] == CallOpen && CallEnd(s).None?
    ensures CallEnd([s[0]] + FixImagePaths(s[1..], dir)).None?
  {
    if FirstQuote(s[7..]).None? {
      FixWithoutLateQuotes(s[1..], dir);
      assert [s[0]] + s[1..] == s;
    } else {
      EmptyPathStays(s, dir);
    }
  }

  lemma EmptyPathStays(s: string, dir: string)
    requires |s| >= 8 && s[..7] == CallOpen && s[7] == '"'
    ensures CallEnd([s[0]] + FixImagePaths(s[1..], dir)).None?
  {
    var out := [s[0]] + FixImagePaths(s[1..], dir);
    FixKeepsPrefix(s[1..], dir, 7);
    assert out[..8] == s[..8];
    EmptyPathNoCall(out);
  }

  /** `image("` followed at once by a quote is no match: the path is empty. */
  lemma EmptyPathNoCall(t: string)
    requires |t| >= 8 && t[..8] == CallOpen + "\""
    ensures CallEnd(t).None?
  {
    assert t[..7] == t[..8][..7];
    assert t[7..][0] == t[7];
  }

  /** Fixing twice is fixing once, for a directory name without quotes: every
      call the first pass leaves has a '/' in its path. */
  lemma {:induction false} FixIdempotent(s: string, dir: string)
    requires QuoteFree(dir)
    ensures FixImagePaths(FixImagePaths(s, dir), dir) == FixImagePaths(s, dir)
    decreases |s|
  {
    match CallEnd(s)
    case Some(e) =>
      FixCallShape(s[..e], dir);
      var path :| path != [] && QuoteFree(path) && '/' in path && FixCall(s[..e], dir) == Call(path);
      FixIdempotent(s[e..], dir);
      FixCallAtStart(path, FixImagePaths(s[e..], dir), dir);
    case None =>
      if s != [] {
        NoNewCall(s, dir);
        FixIdempotent(s[1..], dir);
        var out := [s[0]] + FixImagePaths(s[1..], dir);
        assert out[1..] == FixImagePaths(s[1..], dir);
      }
  }

  // -------------------------------------------------------------- page data

  datatype FontInfo = FontInfo(size: real, styles: seq<string>)

  /** A text block of the session data: its text, font and the top of its
      bounding box (`bbox[1]`). */
  datatype TextBlock = TextBlock(text: string, font: FontInfo, top: real)

  datatype Cell = Cell(row: int, text: string)
  datatype Table = Table(rows: int, cols: int, cells: seq<Cell>)

  /** One page of the session data; `images` holds the images' file names. */
  datatype PageData = PageData(textBlocks: seq<TextBlock>, images: seq<string>, tables: seq<Table>)

  /** Some style name contains "bold". */
  predicate IsBold(font: FontInfo)
  {
    exists i :: 0 <= i < |font.styles| && Contains(font.styles[i], "bold")
  }

  const DocumentSetup: string :=
    "#set page(paper: \"a4\", margin: (top: 2cm, bottom: 2cm, left: 2cm, right: 2cm))\n"
    + "#set text(font: \"Times New Roman\", size: 10pt, lang: \"en\")\n"
    + "#set par(justify: true, leading: 0.65em)\n\n"

  // ----------------------------------------------------------------- title

  predicate IsTitleBlock(b: TextBlock) { b.font.size > 12.0 && IsBold(b.font) }

  /** The index of the first block that looks like a title. */
  function FirstTitleBlock(blocks: seq<TextBlock>): (r: Option<nat>)
    ensures r.Some? ==> (r.value < |blocks| && IsTitleBlock(blocks[r.value])
      && forall j :: 0 <= j < r.value ==> !IsTitleBlock(blocks[j]))
    ensures r.None? <==> forall i :: 0 <= i < |blocks| ==> !IsTitleBlock(blocks[i])
  {
    if blocks == [] then None
    else if IsTitleBlock(blocks[0]) then Some(0)
    else
      var r := FirstTitleBlock(blocks[1..]);
      assert forall i :: 1 <= i < |blocks| ==> blocks[i] == blocks[1..][i - 1];
      if r.Some? then Some(r.value + 1) else None
  }

  /** Python's `str.title()` on ASCII letters: a letter is upper-cased when the
      character before it is not a letter, lower-cased otherwise. */
  function TitleCase(afterLetter: bool, s: string): (r: string)
    ensures |r| == |s|
    decreases |s|
  {
    if s == [] then []
    else
      var c := s[0];
      [if !IsAsciiLetter(c) then c else if afterLetter then LowerChar(c) else UpperChar(c)]
        + TitleCase(IsAsciiLetter(c), s[1..])
  }

  /** Title-casing keeps letters letters, so doing it twice is doing it once. */
  lemma {:induction false} TitleCaseIdempotent(afterLetter: bool, s: string)
    ensures TitleCase(afterLetter, TitleCase(afterLetter, s)) == TitleCase(afterLetter, s)
    decreases |s|
  {
    if s != [] {
      var t := TitleCase(afterLetter, s);
      TitleCaseIdempotent(IsAsciiLetter(s[0]), s[1..]);
      assert IsAsciiLetter(t[0]) == IsAsciiLetter(s[0]);
      assert t[1..] == TitleCase(IsAsciiLetter(s[0]), s[1..]);
    }
  }

  /** The heading of page 1: the stripped text of the first bold block larger
      than 12pt, else the output file's stem with '_' read as ' ', title-cased. */
  function DocumentTitle(blocks: seq<TextBlock>, stem: string): string
  {
    match FirstTitleBlock(blocks)
    case Some(i) => "= " + Strip(blocks[i].text) + "\n\n"
    case None => "= " + TitleCase(false, MapChar(stem, '_', " ")) + "\n\n"
  }

  // ----------------------------------------------------------- text blocks

  datatype BlockKind = Skipped | Heading | PageHeader | PageFooter | Body

  /** What a non-blank block is, leaving aside the page-1 title check: a short
      bold text of at least 8pt is a heading; a text shorter than 200 near the
      top (< 50) or bottom (> 500) is a header or footer; the rest is body. */
  function StaticKind(b: TextBlock): BlockKind
  {
    var text := Strip(b.text);
    if IsBold(b.font) && b.font.size >= 8.0 && |text| < 100 then Heading
    else if (b.top < 50.0 || b.top > 500.0) && |text| < 200 then
      (if b.top < 50.0 then PageHeader else PageFooter)
    else Body
  }

  /** On page 1 a title-like block whose text is already in the output was
      the title, and is skipped. */
  predicate AlreadyTitle(b: TextBlock, pageNum: int, content: string)
  {
    pageNum == 1 && IsBold(b.font) && b.font.size > 12.0 && Contains(content, Strip(b.text))
  }

  function KindOf(b: TextBlock, pageNum: int, content: string): BlockKind
  {
    if Strip(b.text) == "" || AlreadyTitle(b, pageNum, content) then Skipped else StaticKind(b)
  }

  /** The text a block of a given kind appends. */
  function BlockLine(kind: BlockKind, text: string): string
  {
    match kind
    case Heading => "== " + text + "\n\n"
    case PageHeader => "#align(right)[" + text + "]\n\n"
    case PageFooter => "#align(center)[#text(size: 8pt)[" + text + "]]\n\n"
    case _ => ""
  }

  /** The text-block loop of one page: the output so far and the body texts
      collected, after the blocks in order. */
  function HandleBlocks(content: string, blocks: seq<TextBlock>, pageNum: int): (string, seq<string>)
  {
    if blocks == [] then (content, [])
    else
      var (c, body) := HandleBlocks(content, blocks[..|blocks| - 1], pageNum);
      var b := blocks[|blocks| - 1];
      var kind := KindOf(b, pageNum, c);
      (c + BlockLine(kind, Strip(b.text)), if kind == Body then body + [Strip(b.text)] else body)
  }

  predicate IsBodyBlock(b: TextBlock) { Strip(b.text) != "" && StaticKind(b) == Body }
  function StrippedText(b: TextBlock): string { Strip(b.text) }
  function StaticLine(b: TextBlock): string
  {
    if Strip(b.text) == "" then "" else BlockLine(StaticKind(b), Strip(b.text))
  }

  /** Away from the page-1 title check a block's kind depends on the block alone. */
  lemma KindIsStatic(b: TextBlock, pageNum: int, content: string)
    requires pageNum != 1 || !IsTitleBlock(b)
    ensures KindOf(b, pageNum, content) == (if Strip(b.text) == "" then Skipped else StaticKind(b))
    ensures BlockLine(KindOf(b, pageNum, content), Strip(b.text)) == StaticLine(b)
  {
  }

  /** Each block's line on its own, concatenated in block order. */
  function StaticLines(blocks: seq<TextBlock>): string
  {
    if blocks == [] then "" else StaticLines(blocks[..|blocks| - 1]) + StaticLine(blocks[|blocks| - 1])
  }

  /** One step of the loop, the last block against the output before it. */
  lemma HandleBlocksStep(content: string, blocks: seq<TextBlock>, pageNum: int)
    requires blocks != []
    ensures var c := HandleBlocks(content, blocks[..|blocks| - 1], pageNum).0;
      var b := blocks[|blocks| - 1];
      HandleBlocks(content, blocks, pageNum).0 == c + BlockLine(KindOf(b, pageNum, c), Strip(b.text))
  {
  }

  /** Away from the page-1 title check, the output gains each block's line,
      in block order. */
  lemma {:induction false} HandleBlocksOutput(content: string, blocks: seq<TextBlock>, pageNum: int)
    requires pageNum != 1 || forall i :: 0 <= i < |blocks| ==> !IsTitleBlock(blocks[i])
    ensures HandleBlocks(content, blocks, pageNum).0 == content + StaticLines(blocks)
    decreases |blocks|
  {
    if blocks != [] {
      var n := |blocks| - 1;
      HandleBlocksOutput(content, blocks[..n], pageNum);
      var c := HandleBlocks(content, blocks[..n], pageNum).0;
      KindIsStatic(blocks[n], pageNum, c);
      HandleBlocksStep(content, blocks, pageNum);
    }
  }

  /** Away from the page-1 title check, the body list is the stripped texts
      of the body blocks, in block order. */
  lemma {:induction false} HandleBlocksBody(content: string, blocks: seq<TextBlock>, pageNum: int)
    requires pageNum != 1 || forall i :: 0 <= i < |blocks| ==> !IsTitleBlock(blocks[i])
    ensures HandleBlocks(content, blocks, pageNum).1 == Map(Filter(blocks, IsBodyBlock), StrippedText)
    decreases |blocks|
  {
    if blocks != [] {
      var n := |blocks| - 1;
      HandleBlocksBody(content, blocks[..n], pageNum);
      BodyStep(content, blocks, pageNum);
      assert blocks[..n + 1] == blocks;
      MapFilterSnoc(blocks, n, IsBodyBlock, StrippedText);
    }
  }

  /** One step of the body list, away from the page-1 title check. */
  lemma BodyStep(content: string, blocks: seq<TextBlock>, pageNum: int)
    requires blocks != []
    requires pageNum != 1 || !IsTitleBlock(blocks[|blocks| - 1])
    ensures var b := blocks[|blocks| - 1];
      HandleBlocks(content, blocks, pageNum).1
        == HandleBlocks(content, blocks[..|blocks| - 1], pageNum).1 + if IsBodyBlock(b) then [StrippedText(b)] else []
  {
    var n := |blocks| - 1;
    var body := HandleBlocks(content, blocks[..n], pageNum).1;
    KindIsStatic(blocks[n], pageNum, HandleBlocks(content, blocks[..n], pageNum).0);
    assert body + [] == body;
  }

  /** The output only grows: the loop appends to it. */
  lemma {:induction false} HandleBlocksExtends(content: string, blocks: seq<TextBlock>, pageNum: int)
    ensures content <= HandleBlocks(content, blocks, pageNum).0
    decreases |blocks|
  {
    if blocks != [] {
      HandleBlocksExtends(content, blocks[..|blocks| - 1], pageNum);
    }
  }

  // ------------------------------------------------------------ paragraphs

  /** A text longer than 200 characters is taken for a whole paragraph. */
  predicate IsLong(t: string) { |t| > 200 }

  /** A paragraph: its texts joined by spaces, then a blank line. */
  function Emit(group: seq<string>): string { Join(" ", group) + "\n\n" }

  /** The pending short texts, if any, as one paragraph. */
  function Flush(current: seq<string>): string
  {
    if current == [] then "" else Emit(current)
  }

  /** The paragraph loop: short texts collect in `current`; a long text
      flushes them and is emitted on its own; what is left is flushed at
      the end. */
  function ParagraphText(current: seq<string>, texts: seq<string>): string
    decreases |texts|
  {
    if texts == [] then Flush(current)
    else if IsLong(texts[0]) then Flush(current) + texts[0] + "\n\n" + ParagraphText([], texts[1..])
    else ParagraphText(current + [texts[0]], texts[1..])
  }

  /** The pending short texts as a list of at most one paragraph. */
  function Pending(current: seq<string>): seq<seq<string>>
  {
    if current == [] then [] else [current]
  }

  /** The same loop seen as grouping: the paragraphs it forms. */
  function Paragraphs(current: seq<string>, texts: seq<string>): seq<seq<string>>
    decreases |texts|
  {
    if texts == [] then Pending(current)
    else if IsLong(texts[0]) then Pending(current) + [[texts[0]]] + Paragraphs([], texts[1..])
    else Paragraphs(current + [texts[0]], texts[1..])
  }

  /** A run of short texts. */
  predicate ShortRun(group: seq<string>)
  {
    group != [] && forall k :: 0 <= k < |group| ==> !IsLong(group[k])
  }

  /** A long text standing alone. */
  predicate LongAlone(group: seq<string>) { |group| == 1 && IsLong(group[0]) }

  lemma PendingEmits(current: seq<string>)
    ensures Flatten(Map(Pending(current), Emit)) == Flush(current)
    ensures Flatten(Pending(current)) == current
  {
    if current != [] {
      assert Flatten(Map([current], Emit)) == Emit(current) + Flatten(Map([current], Emit)[1..]);
      assert Flatten([current]) == current + Flatten([current][1..]);
    }
  }

  lemma SingleEmits(t: string)
    ensures Flatten(Map([[t]], Emit)) == t + "\n\n"
    ensures Flatten([[t]]) == [t]
  {
    assert Flatten(Map([[t]], Emit)) == Emit([t]) + Flatten(Map([[t]], Emit)[1..]);
    assert Flatten([[t]]) == [t] + Flatten([[t]][1..]);
  }

  /** Emitting and flattening distribute over the three parts of a long-text step. */
  lemma ThreeParts<T>(a: seq<seq<T>>, b: seq<seq<T>>, c: seq<seq<T>>)
    ensures Flatten(a + b + c) == Flatten(a) + Flatten(b) + Flatten(c)
  {
    FlattenConcat(a + b, c);
    FlattenConcat(a, b);
  }

  lemma MapThreeParts(a: seq<seq<string>>, b: seq<seq<string>>, c: seq<seq<string>>)
    ensures Map(a + b + c, Emit) == Map(a, Emit) + Map(b, Emit) + Map(c, Emit)
  {
    MapAppend(a + b, c, Emit);
    MapAppend(a, b, Emit);
  }

  lemma ConsAssoc<T>(a: seq<T>, b: seq<T>)
    requires b != []
    ensures a + [b[0]] + b[1..] == a + b
  {
    assert [b[0]] + b[1..] == b;
  }

  /** The loop emits exactly the paragraphs it forms, in order. */
  lemma {:induction false} ParagraphTextEmitsParagraphs(current: seq<string>, texts: seq<string>)
    ensures ParagraphText(current, texts) == Flatten(Map(Paragraphs(current, texts), Emit))
    decreases |texts|
  {
    if texts == [] {
      PendingEmits(current);
    } else if IsLong(texts[0]) {
      var pre, mid, rest := Pending(current), [[texts[0]]], Paragraphs([], texts[1..]);
      ParagraphTextEmitsParagraphs([], texts[1..]);
      MapThreeParts(pre, mid, rest);
      ThreeParts(Map(pre, Emit), Map(mid, Emit), Map(rest, Emit));
      PendingEmits(current);
      SingleEmits(texts[0]);
    } else {
      ParagraphTextEmitsParagraphs(current + [texts[0]], texts[1..]);
    }
  }

  /** Grouping loses and reorders nothing: the paragraphs, concatenated, are
      the pending texts followed by the input texts. */
  lemma {:induction false} ParagraphsCover(current: seq<string>, texts: seq<string>)
    ensures Flatten(Paragraphs(current, texts)) == current + texts
    decreases |texts|
  {
    if texts == [] {
      PendingEmits(current);
    } else if IsLong(texts[0]) {
      ParagraphsCover([], texts[1..]);
      ThreeParts(Pending(current), [[texts[0]]], Paragraphs([], texts[1..]));
      PendingEmits(current);
      SingleEmits(texts[0]);
      ConsAssoc(current, texts);
    } else {
      ParagraphsCover(current + [texts[0]], texts[1..]);
    }
  }

  /** Every paragraph is either a long text on its own or a run of short
      texts. */
  lemma {:induction false} ParagraphsShape(current: seq<string>, texts: seq<string>)
    requires current == [] || ShortRun(current)
    ensures forall i :: 0 <= i < |Paragraphs(current, texts)| ==>
      LongAlone(Paragraphs(current, texts)[i]) || ShortRun(Paragraphs(current, texts)[i])
    decreases |texts|
  {
    if texts != [] {
      if IsLong(texts[0]) {
        ParagraphsShape([], texts[1..]);
      } else {
        ParagraphsShape(current + [texts[0]], texts[1..]);
      }
    }
  }

  /** Short texts are merged as far as they go: no two neighbouring
      paragraphs are both runs of short texts. */
  lemma {:induction false} ParagraphsMaximal(current: seq<string>, texts: seq<string>)
    ensures forall i :: 0 <= i < |Paragraphs(current, texts)| - 1 ==>
      !(ShortRun(Paragraphs(current, texts)[i]) && ShortRun(Paragraphs(current, texts)[i + 1]))
    decreases |texts|
  {
    if texts != [] {
      if IsLong(texts[0]) {
        var pre, rest := Pending(current), Paragraphs([], texts[1..]);
        ParagraphsMaximal([], texts[1..]);
        var ps := pre + [[texts[0]]] + rest;
        assert ps[|pre|] == [texts[0]] && [texts[0]][0] == texts[0];
        forall i | 0 <= i < |ps| - 1
          ensures !(ShortRun(ps[i]) && ShortRun(ps[i + 1]))
        {
          if i > |pre| {
            assert ps[i] == rest[i - |pre| - 1] && ps[i + 1] == rest[i - |pre|];
          }
        }
      } else {
        ParagraphsMaximal(current + [texts[0]], texts[1..]);
      }
    }
  }

  // --------------------------------------------------------------- figures

  /** The image path written into the document: prefixed with the image
      directory's name when there is an image directory. */
  function ImagePath(dir: Option<string>, filename: string): string
  {
    match dir
    case Some(name) => name + "/" + filename
    case None => filename
  }

  const FigureOpen := "#figure(\n  "

  /** The figure of the `index`-th image (from 0) of page `pageNum`. */
  function FigureText(path: string, pageNum: nat, index: nat): string
  {
    FigureOpen + Call(path) + FigureTail(pageNum, index)
  }

  function FigureTail(pageNum: nat, index: nat): string
  {
    ", width: 70%),\n  caption: [\U{56FE}\U{7247} " + NatToString(pageNum) + "-" + NatToString(index + 1) + "]\n)\n\n"
  }

  /** The figures of one page, in image order. */
  function FigureList(images: seq<string>, pageNum: nat, dir: Option<string>): (r: seq<string>)
    ensures |r| == |images|
  {
    seq(|images|, i requires 0 <= i < |images| => FigureText(ImagePath(dir, images[i]), pageNum, i))
  }

  /** A prefix none of whose positions starts the text `im` is copied by the
      path fixer unchanged. */
  /** Position k of x starts the text `im`. */
  predicate StartsIm(x: string, k: int)
    requires 0 <= k < |x|
  {
    x[k] == 'i' && k + 1 < |x| && x[k + 1] == 'm'
  }

  /** The first n characters, none of which starts `im`, are copied by the
      path fixer unchanged. */
  lemma {:induction false} FixSkipsPrefix(x: string, n: int, dir: string)
    requires 0 <= n <= |x|
    requires forall k :: 0 <= k < n ==> !StartsIm(x, k)
    ensures FixImagePaths(x, dir) == x[..n] + FixImagePaths(x[n..], dir)
    decreases n
  {
    if n > 0 {
      NotCallStart(x, dir);
      StartsImShift(x, n);
      FixSkipsPrefix(x[1..], n - 1, dir);
      ConsSplit(x, n, FixImagePaths(x[n..], dir));
    } else {
      assert x[..0] + FixImagePaths(x[0..], dir) == FixImagePaths(x, dir);
    }
  }

  lemma StartsImShift(x: string, n: int)
    requires 0 < n <= |x|
    requires forall k :: 0 <= k < n ==> !StartsIm(x, k)
    ensures forall k :: 0 <= k < n - 1 ==> !StartsIm(x[1..], k)
  {
    assert forall k :: 0 <= k < n - 1 ==> StartsIm(x[1..], k) == StartsIm(x, k + 1);
  }

  lemma ConsSplit(x: string, n: int, rest: string)
    requires 0 < n <= |x|
    ensures x[1..][n - 1..] == x[n..]
    ensures [x[0]] + (x[1..][..n - 1] + rest) == x[..n] + rest
  {
    assert x[..n] == [x[0]] + x[1..][..n - 1];
  }

  /** No match starts at a text whose first two characters are not `im`. */
  lemma NotCallStart(s: string, dir: string)
    requires s != [] && !StartsIm(s, 0)
    ensures FixImagePaths(s, dir) == [s[0]] + FixImagePaths(s[1..], dir)
  {
    assert |s| >= 7 ==> s[..7][0] == s[0] && s[..7][1] == s[1];
    assert CallEnd(s).None?;
  }

  lemma QuoteFreeConcat(a: string, b: string)
    requires QuoteFree(a) && QuoteFree(b)
    ensures QuoteFree(a + b)
  {
  }

  lemma FigureTailQuoteFree(pageNum: nat, index: nat)
    ensures QuoteFree(FigureTail(pageNum, index))
  {
    var a, b := NatToString(pageNum), NatToString(index + 1);
    assert QuoteFree(a) && QuoteFree(b);
    var head := ", width: 70%),\n  caption: [\U{56FE}\U{7247} ";
    assert QuoteFree(head);
    QuoteFreeConcat(head, a);
    QuoteFreeConcat(head + a, "-");
    QuoteFreeConcat(head + a + "-", b);
    QuoteFreeConcat(head + a + "-" + b, "]\n)\n\n");
  }

  /** The opening of a figure holds no match and is copied by the fixer. */
  lemma FigureOpenSkipped(rest: string, dir: string)
    ensures FixImagePaths(FigureOpen + rest, dir) == FigureOpen + FixImagePaths(rest, dir)
  {
    var x := FigureOpen + rest;
    var n := |FigureOpen|;
    assert forall k :: 0 <= k < n ==> x[k] == FigureOpen[k];
    assert forall k :: 0 <= k < n ==> !StartsIm(x, k);
    FixSkipsPrefix(x, n, dir);
    assert x[..n] == FigureOpen && x[n..] == rest;
  }

  /** A figure whose path already names a directory is left as it is by the
      path fixer: with an image directory, the fixer never touches the
      figures written here. */
  lemma FigureUnchangedByFix(path: string, pageNum: nat, index: nat, dir: string)
    requires path != [] && QuoteFree(path) && '/' in path
    ensures FixImagePaths(FigureText(path, pageNum, index), dir) == FigureText(path, pageNum, index)
  {
    var tail := FigureTail(pageNum, index);
    FigureTailQuoteFree(pageNum, index);
    FixWithoutLateQuotes(tail, dir);
    FixCallAtStart(path, tail, dir);
    FigureOpenSkipped(Call(path) + tail, dir);
    assert FigureText(path, pageNum, index) == FigureOpen + (Call(path) + tail);
  }

  // ---------------------------------------------------------------- tables

  function Bracket(t: string): string { "[" + t + "]" }

  /** The texts of the cells of row `row`, in cell order. */
  function RowCells(cells: seq<Cell>, row: int): seq<string>
  {
    Map(Filter(cells, (c: Cell) => c.row == row), (c: Cell) => c.text)
  }

  /** A row's line: its cells, bracketed and comma-separated; nothing for a
      row without cells. */
  function RowLine(cells: seq<Cell>, row: int): string
  {
    var texts := RowCells(cells, row);
    if texts == [] then "" else "  " + Join(", ", Map(texts, Bracket)) + ",\n"
  }

  /** The lines of rows 0 to n - 1. */
  function RowLines(cells: seq<Cell>, n: int): string
    decreases n
  {
    if n <= 0 then "" else RowLines(cells, n - 1) + RowLine(cells, n - 1)
  }

  const TableOpen := "#table(\n"

  /** The lines that open a table of `cols` columns. */
  function TableHead(cols: int): string
  {
    TableOpen + "  columns: " + IntToString(cols) + ",\n" + "  stroke: 0.5pt,\n"
  }

  /** A table with at least one row and one column. */
  function TableText(t: Table): string
  {
    if t.rows > 0 && t.cols > 0 then TableHead(t.cols) + RowLines(t.cells, t.rows) + ")\n\n" else ""
  }

  /** A row gets a line exactly when some cell lies in it. */
  lemma RowLineEmptyIff(cells: seq<Cell>, row: int)
    ensures RowLine(cells, row) == "" <==> forall i :: 0 <= i < |cells| ==> cells[i].row != row
  {
    var p := (c: Cell) => c.row == row;
    FilterMembers(cells, p);
    if RowCells(cells, row) == [] {
      assert |Filter(cells, p)| == 0;
    } else {
      assert Filter(cells, p)[0].row == row;
    }
  }

  /** A row's line holds each of the row's cells, bracketed. */
  lemma RowLineContains(cells: seq<Cell>, row: int, k: int)
    requires 0 <= k < |RowCells(cells, row)|
    ensures Contains(RowLine(cells, row), Bracket(RowCells(cells, row)[k]))
  {
    var parts := Map(RowCells(cells, row), Bracket);
    JoinContainsPart(", ", parts, k);
    ContainsWithin("  ", Join(", ", parts), ",\n", parts[k]);
  }

  /** The lines of rows 0 to n - 1 hold every cell of those rows. */
  lemma {:induction false} RowLinesContain(cells: seq<Cell>, n: int, row: int, k: int)
    requires 0 <= row < n && 0 <= k < |RowCells(cells, row)|
    ensures Contains(RowLines(cells, n), Bracket(RowCells(cells, row)[k]))
    decreases n
  {
    var sub := Bracket(RowCells(cells, row)[k]);
    if row < n - 1 {
      RowLinesContain(cells, n - 1, row, k);
    } else {
      RowLineContains(cells, row, k);
    }
    ContainsAppend(RowLines(cells, n - 1), RowLine(cells, n - 1), sub);
  }

  /** Nothing of a non-empty table is lost: every cell in a row of the table
      appears, bracketed, in its text. */
  lemma TableKeepsCells(t: Table, i: int)
    requires t.rows > 0 && t.cols > 0
    requires 0 <= i < |t.cells| && 0 <= t.cells[i].row < t.rows
    ensures Contains(TableText(t), Bracket(t.cells[i].text))
  {
    var row := t.cells[i].row;
    var p := (c: Cell) => c.row == row;
    FilterMembers(t.cells, p);
    assert t.cells[i] in Filter(t.cells, p);
    var k :| 0 <= k < |Filter(t.cells, p)| && Filter(t.cells, p)[k] == t.cells[i];
    assert RowCells(t.cells, row)[k] == t.cells[i].text;
    RowLinesContain(t.cells, t.rows, row, k);
    ContainsWithin(TableHead(t.cols), RowLines(t.cells, t.rows), ")\n\n", Bracket(t.cells[i].text));
  }

  // -------------------------------------------------------------- document

  /** The tables of one page, in order; a table without rows or columns
      adds nothing. */
  function TablesText(tables: seq<Table>): string
  {
    Flatten(Map(tables, TableText))
  }

  /** What page `pageNum` (from 1) adds after `content`: on page 1 the
      heading, then the headings, headers and footers of its text blocks,
      the paragraphs of its body texts, its figures and its tables. */
  function PageStep(content: string, page: PageData, pageNum: nat, stem: string, dir: Option<string>): string
  {
    var titled := if pageNum == 1 then content + DocumentTitle(page.textBlocks, stem) else content;
    var (withBlocks, body) := HandleBlocks(titled, page.textBlocks, pageNum);
    withBlocks + ParagraphText([], body) + Flatten(FigureList(page.images, pageNum, dir)) + TablesText(page.tables)
  }

  /** The page loop as a left fold: `step` gets the output so far, the page
      and its number (from 1). */
  function Fold<P>(pages: seq<P>, init: string, step: (string, P, nat) -> string): string
    decreases |pages|
  {
    if pages == [] then init
    else step(Fold(pages[..|pages| - 1], init, step), pages[|pages| - 1], |pages|)
  }

  lemma FoldSnoc<P>(pages: seq<P>, i: int, init: string, step: (string, P, nat) -> string)
    requires 0 <= i < |pages|
    ensures Fold(pages[..i + 1], init, step) == step(Fold(pages[..i], init, step), pages[i], i + 1)
  {
    assert pages[..i + 1][..i] == pages[..i];
  }

  /** A step that only appends makes the output for the first k pages a
      prefix of the output for all of them. */
  lemma {:induction false} FoldPrefix<P>(pages: seq<P>, k: int, init: string, step: (string, P, nat) -> string)
    requires 0 <= k <= |pages|
    requires forall c, p, n :: c <= step(c, p, n)
    ensures Fold(pages[..k], init, step) <= Fold(pages, init, step)
    decreases |pages| - k
  {
    if k < |pages| {
      var n := |pages| - 1;
      FoldPrefix(pages[..n], k, init, step);
      assert pages[..n][..k] == pages[..k];
      assert Fold(pages[..n], init, step) <= Fold(pages, init, step);
    } else {
      assert pages[..k] == pages;
    }
  }

  function PageSteps(stem: string, dir: Option<string>): (string, PageData, nat) -> string
  {
    (content: string, page: PageData, pageNum: nat) => PageStep(content, page, pageNum, stem, dir)
  }

  /** `generate_smart_typst_content`: the setup, then each page in order. */
  function SmartContent(pages: seq<PageData>, stem: string, dir: Option<string>): string
  {
    Fold(pages, DocumentSetup, PageSteps(stem, dir))
  }

  lemma ContainsPrefix(a: string, b: string, sub: string)
    requires a <= b && Contains(a, sub)
    ensures Contains(b, sub)
  {
    ContainsAppend(a, b[|a|..], sub);
    assert a + b[|a|..] == b;
  }

  /** A concatenation of strings contains each of them. */
  lemma FlattenContainsPart(ss: seq<string>, j: int)
    requires 0 <= j < |ss|
    ensures Contains(Flatten(ss), ss[j])
  {
    FlattenSplit(ss, j);
    ContainsInfix(Flatten(ss[..j]), ss[j], Flatten(ss[j + 1..]));
  }

  lemma FlattenSplit<T>(ss: seq<seq<T>>, j: int)
    requires 0 <= j < |ss|
    ensures Flatten(ss) == Flatten(ss[..j]) + ss[j] + Flatten(ss[j + 1..])
  {
    var a, b, c := ss[..j], [ss[j]], ss[j + 1..];
    SplitAround(ss, j);
    ThreeParts(a, b, c);
    FlattenOne(ss[j]);
  }

  lemma SplitAround<T>(s: seq<T>, j: int)
    requires 0 <= j < |s|
    ensures s[..j] + [s[j]] + s[j + 1..] == s
  {
  }

  lemma FlattenOne<T>(s: seq<T>)
    ensures Flatten([s]) == s
  {
    assert Flatten([s]) == s + Flatten([s][1..]);
    assert [s][1..] == [];
  }

  /** A page only appends to what was written before it. */
  lemma PageStepExtends(content: string, page: PageData, pageNum: nat, stem: string, dir: Option<string>)
    ensures content <= PageStep(content, page, pageNum, stem, dir)
    ensures pageNum == 1 ==> content + DocumentTitle(page.textBlocks, stem) <= PageStep(content, page, pageNum, stem, dir)
  {
    var titled := if pageNum == 1 then content + DocumentTitle(page.textBlocks, stem) else content;
    HandleBlocksExtends(titled, page.textBlocks, pageNum);
  }

  /** Every figure and every table of the page is in what the page adds. */
  lemma PageStepHasParts(content: string, page: PageData, pageNum: nat, stem: string, dir: Option<string>)
    ensures forall j :: 0 <= j < |page.images| ==>
      Contains(PageStep(content, page, pageNum, stem, dir), FigureText(ImagePath(dir, page.images[j]), pageNum, j))
    ensures forall j :: 0 <= j < |page.tables| ==>
      Contains(PageStep(content, page, pageNum, stem, dir), TableText(page.tables[j]))
  {
    var titled := if pageNum == 1 then content + DocumentTitle(page.textBlocks, stem) else content;
    var (withBlocks, body) := HandleBlocks(titled, page.textBlocks, pageNum);
    var figures := FigureList(page.images, pageNum, dir);
    var pre := withBlocks + ParagraphText([], body);
    forall j | 0 <= j < |page.images|
      ensures Contains(PageStep(content, page, pageNum, stem, dir), FigureText(ImagePath(dir, page.images[j]), pageNum, j))
    {
      FlattenContainsPart(figures, j);
      ContainsWithin(pre, Flatten(figures), TablesText(page.tables), figures[j]);
    }
    forall j | 0 <= j < |page.tables|
      ensures Contains(PageStep(content, page, pageNum, stem, dir), TableText(page.tables[j]))
    {
      FlattenContainsPart(Map(page.tables, TableText), j);
      ContainsAppend(pre + Flatten(figures), TablesText(page.tables), TableText(page.tables[j]));
    }
  }

  /** Later pages only append: the output for the first k pages is a prefix
      of the output for all of them. */
  lemma SmartContentPrefix(pages: seq<PageData>, k: int, stem: string, dir: Option<string>)
    requires 0 <= k <= |pages|
    ensures SmartContent(pages[..k], stem, dir) <= SmartContent(pages, stem, dir)
  {
    var step := PageSteps(stem, dir);
    forall c, p, n
      ensures c <= step(c, p, n)
    {
      PageStepExtends(c, p, n, stem, dir);
    }
    FoldPrefix(pages, k, DocumentSetup, step);
  }

  lemma SmartContentSnoc(pages: seq<PageData>, i: int, stem: string, dir: Option<string>)
    requires 0 <= i < |pages|
    ensures SmartContent(pages[..i + 1], stem, dir) == PageStep(SmartContent(pages[..i], stem, dir), pages[i], i + 1, stem, dir)
  {
    FoldSnoc(pages, i, DocumentSetup, PageSteps(stem, dir));
  }

  /** The document opens with the setup. */
  lemma SmartContentOpensWithSetup(pages: seq<PageData>, stem: string, dir: Option<string>)
    ensures DocumentSetup <= SmartContent(pages, stem, dir)
  {
    SmartContentPrefix(pages, 0, stem, dir);
    assert pages[..0] == [];
  }

  /** When there is a first page, its heading follows the setup. */
  lemma SmartContentFirstHeading(pages: seq<PageData>, stem: string, dir: Option<string>)
    requires pages != []
    ensures DocumentSetup + DocumentTitle(pages[0].textBlocks, stem) <= SmartContent(pages, stem, dir)
  {
    var first := SmartContent(pages[..1], stem, dir);
    SmartContentPrefix(pages, 1, stem, dir);
    SmartContentSnoc(pages, 0, stem, dir);
    assert pages[..0] == [];
    PageStepExtends(DocumentSetup, pages[0], 1, stem, dir);
    PrefixTransitive(DocumentSetup + DocumentTitle(pages[0].textBlocks, stem), first, SmartContent(pages, stem, dir));
  }

  lemma PrefixTransitive(a: string, b: string, c: string)
    requires a <= b && b <= c
    ensures a <= c
  {
  }

  /** Every image of every page gets its figure, numbered by page and
      position, and every table its table. */
  lemma SmartContentHasParts(pages: seq<PageData>, i: int, stem: string, dir: Option<string>)
    requires 0 <= i < |pages|
    ensures forall j :: 0 <= j < |pages[i].images| ==>
      Contains(SmartContent(pages, stem, dir), FigureText(ImagePath(dir, pages[i].images[j]), i + 1, j))
    ensures forall j :: 0 <= j < |pages[i].tables| ==>
      Contains(SmartContent(pages, stem, dir), TableText(pages[i].tables[j]))
  {
    var upTo := SmartContent(pages[..i + 1], stem, dir);
    SmartContentSnoc(pages, i, stem, dir);
    PageStepHasParts(SmartContent(pages[..i], stem, dir), pages[i], i + 1, stem, dir);
    SmartContentPrefix(pages, i + 1, stem, dir);
    forall j | 0 <= j < |pages[i].images|
      ensures Contains(SmartContent(pages, stem, dir), FigureText(ImagePath(dir, pages[i].images[j]), i + 1, j))
    {
      ContainsPrefix(upTo, SmartContent(pages, stem, dir), FigureText(ImagePath(dir, pages[i].images[j]), i + 1, j));
    }
    forall j | 0 <= j < |pages[i].tables|
      ensures Contains(SmartContent(pages, stem, dir), TableText(pages[i].tables[j]))
    {
      ContainsPrefix(upTo, SmartContent(pages, stem, dir), TableText(pages[i].tables[j]));
    }
  }

  // -------------------------------------------------------------- captions

  const CaptionKeywords: seq<string> := ["photo", "figure", "image", "picture", "courtesy", "credit"]

  /** A small-print (< 8pt) text longer than 50 characters that mentions a
      caption word is taken for an image caption. */
  predicate IsCaption(b: TextBlock)
  {
    var text := Strip(b.text);
    b.font.size < 8.0 && |text| > 50
      && exists k :: 0 <= k < |CaptionKeywords| && Contains(Lower(text), CaptionKeywords[k])
  }

  function CaptionKey(n: nat): string { "caption_" + NatToString(n) }

  /** The stripped texts of the blocks that satisfy `p`, keyed in order of
      insertion: the n-th one found gets key `caption_n`. */
  function Keyed(blocks: seq<TextBlock>, p: TextBlock -> bool): seq<(string, string)>
    decreases |blocks|
  {
    if blocks == [] then []
    else
      var found := Keyed(blocks[..|blocks| - 1], p);
      var b := blocks[|blocks| - 1];
      if p(b) then found + [(CaptionKey(|found| + 1), Strip(b.text))] else found
  }

  /** `extract_image_captions_from_text`: the dictionary, in insertion
      order, as a sequence of key and text pairs. */
  function Captions(blocks: seq<TextBlock>): seq<(string, string)>
  {
    Keyed(blocks, IsCaption)
  }

  /** Texts keyed `caption_1`, `caption_2`, ... in order. */
  function Numbered(texts: seq<string>): (r: seq<(string, string)>)
    ensures |r| == |texts|
  {
    seq(|texts|, i requires 0 <= i < |texts| => (CaptionKey(i + 1), texts[i]))
  }

  lemma NumberedSnoc(texts: seq<string>, t: string)
    ensures Numbered(texts + [t]) == Numbered(texts) + [(CaptionKey(|texts| + 1), t)]
  {
  }

  lemma {:induction false} KeyedNumbered(blocks: seq<TextBlock>, p: TextBlock -> bool)
    ensures Keyed(blocks, p) == Numbered(Map(Filter(blocks, p), StrippedText))
    decreases |blocks|
  {
    if blocks != [] {
      var n := |blocks| - 1;
      var before := Map(Filter(blocks[..n], p), StrippedText);
      KeyedNumbered(blocks[..n], p);
      assert blocks[..n + 1] == blocks;
      MapFilterSnoc(blocks, n, p, StrippedText);
      if p(blocks[n]) {
        NumberedSnoc(before, Strip(blocks[n].text));
      } else {
        assert before + [] == before;
      }
    }
  }

  /** The captions are the caption blocks' stripped texts, in block order,
      keyed `caption_1`, `caption_2`, ... */
  lemma CaptionsNumbered(blocks: seq<TextBlock>)
    ensures Captions(blocks) == Numbered(Map(Filter(blocks, IsCaption), StrippedText))
  {
    KeyedNumbered(blocks, IsCaption);
  }

  // -------------------------------------------------------------- enhanced

  /** `generate_enhanced_typst_with_ai_analysis`: the smart content, with
      the image paths fixed when there is an image directory. */
  function Enhanced(pages: seq<PageData>, stem: string, dir: Option<string>): string
  {
    var content := SmartContent(pages, stem, dir);
    match dir
    case Some(name) => FixImagePaths(content, name)
    case None => content
  }

  /** Without an image directory the enhanced content is the smart content;
      with one whose name holds no quote, fixing it again changes nothing. */
  lemma EnhancedIsFixed(pages: seq<PageData>, stem: string, dir: Option<string>)
    ensures dir.None? ==> Enhanced(pages, stem, dir) == SmartContent(pages, stem, dir)
    ensures dir.Some? && QuoteFree(dir.value) ==>
      FixImagePaths(Enhanced(pages, stem, dir), dir.value) == Enhanced(pages, stem, dir)
  {
    if dir.Some? && QuoteFree(dir.value) {
      FixIdempotent(SmartContent(pages, stem, dir), dir.value);
    }
  }

  // --------------------------------------------------------------- methods

  lemma Assoc(a: string, b: string, c: string)
    ensures a + b + c == a + (b + c)
  {
  }

  lemma FirstTitleBlockAt(blocks: seq<TextBlock>, i: int)
    requires 0 <= i < |blocks| && IsTitleBlock(blocks[i])
    requires forall j :: 0 <= j < i ==> !IsTitleBlock(blocks[j])
    ensures FirstTitleBlock(blocks) == Some(i)
  {
    var r := FirstTitleBlock(blocks);
  }

  /** The title search of page 1: the first title-like block, else the
      stem. */
  method FindTitle(blocks: seq<TextBlock>, stem: string) returns (title: string)
    ensures title == DocumentTitle(blocks, stem)
  {
    var i := 0;
    while i < |blocks|
      invariant 0 <= i <= |blocks|
      invariant forall j :: 0 <= j < i ==> !IsTitleBlock(blocks[j])
    {
      if blocks[i].font.size > 12.0 && IsBold(blocks[i].font) {
        FirstTitleBlockAt(blocks, i);
        title := "= " + Strip(blocks[i].text) + "\n\n";
        return;
      }
      i := i + 1;
    }
    title := "= " + TitleCase(false, MapChar(stem, '_', " ")) + "\n\n";
  }

  /** Both results of one step of the text-block loop. */
  lemma HandleBlocksSnoc(content: string, blocks: seq<TextBlock>, i: int, pageNum: int, c: string, body: seq<string>)
    requires 0 <= i < |blocks|
    requires (c, body) == HandleBlocks(content, blocks[..i], pageNum)
    ensures HandleBlocks(content, blocks[..i + 1], pageNum).0
      == c + BlockLine(KindOf(blocks[i], pageNum, c), Strip(blocks[i].text))
    ensures HandleBlocks(content, blocks[..i + 1], pageNum).1
      == if KindOf(blocks[i], pageNum, c) == Body then body + [Strip(blocks[i].text)] else body
  {
    assert blocks[..i + 1][..i] == blocks[..i];
  }

  /** One block of the text-block loop. */
  method AddBlock(content: string, body: seq<string>, b: TextBlock, pageNum: int) returns (out: string, body': seq<string>)
    ensures out == content + BlockLine(KindOf(b, pageNum, content), Strip(b.text))
    ensures body' == if KindOf(b, pageNum, content) == Body then body + [Strip(b.text)] else body
  {
    out, body' := content, body;
    var text := Strip(b.text);
    var bold := IsBold(b.font);
    ghost var kind := KindOf(b, pageNum, content);
    if text == "" || (pageNum == 1 && bold && b.font.size > 12.0 && Contains(out, text)) {
      assert kind == Skipped;
      assert content + "" == content;
    } else if bold && b.font.size >= 8.0 && |text| < 100 {
      assert kind == Heading;
      out := out + ("== " + text + "\n\n");
    } else if (b.top < 50.0 || b.top > 500.0) && |text| < 200 {
      if b.top < 50.0 {
        assert kind == PageHeader;
        out := out + ("#align(right)[" + text + "]\n\n");
      } else {
        assert kind == PageFooter;
        out := out + ("#align(center)[#text(size: 8pt)[" + text + "]]\n\n");
      }
    } else {
      assert kind == Body;
      assert content + "" == content;
      body' := body' + [text];
    }
  }

  /** The text-block loop. */
  method AddBlocks(content: string, blocks: seq<TextBlock>, pageNum: int) returns (out: string, body: seq<string>)
    ensures (out, body) == HandleBlocks(content, blocks, pageNum)
  {
    out, body := content, [];
    var i := 0;
    while i < |blocks|
      invariant 0 <= i <= |blocks|
      invariant (out, body) == HandleBlocks(content, blocks[..i], pageNum)
    {
      HandleBlocksSnoc(content, blocks, i, pageNum, out, body);
      out, body := AddBlock(out, body, blocks[i], pageNum);
      i := i + 1;
    }
    assert blocks[..i] == blocks;
  }

  /** The paragraph loop, with its buffer of pending short texts. */
  method AddParagraphs(content: string, texts: seq<string>) returns (out: string)
    ensures out == content + ParagraphText([], texts)
  {
    out := content;
    var current: seq<string> := [];
    var i := 0;
    while i < |texts|
      invariant 0 <= i <= |texts|
      invariant out + ParagraphText(current, texts[i..]) == content + ParagraphText([], texts)
    {
      var t := texts[i];
      assert texts[i..][0] == t && texts[i..][1..] == texts[i + 1..];
      if |t| > 200 {
        var rest := ParagraphText([], texts[i + 1..]);
        if current != [] {
          assert out + (Emit(current) + t + "\n\n" + rest) == out + Emit(current) + (t + "\n\n" + rest);
          out := out + (Join(" ", current) + "\n\n");
          current := [];
        }
        assert out + (Flush(current) + t + "\n\n" + rest) == out + (t + "\n\n") + rest;
        out := out + (t + "\n\n");
      } else {
        current := current + [t];
      }
      i := i + 1;
    }
    if current != [] {
      out := out + (Join(" ", current) + "\n\n");
    }
  }

  /** The figure loop: one figure per image, numbered from 1. */
  method AddFigures(content: string, images: seq<string>, pageNum: nat, dir: Option<string>) returns (out: string)
    ensures out == content + Flatten(FigureList(images, pageNum, dir))
  {
    out := content;
    ghost var figures := FigureList(images, pageNum, dir);
    var i := 0;
    while i < |images|
      invariant 0 <= i <= |images|
      invariant out == content + Flatten(figures[..i])
    {
      var path := ImagePath(dir, images[i]);
      FiguresSnoc(figures, i);
      Assoc(content, Flatten(figures[..i]), figures[i]);
      out := out + FigureText(path, pageNum, i);
      i := i + 1;
    }
    assert figures[..i] == figures;
  }

  lemma FiguresSnoc(figures: seq<string>, i: int)
    requires 0 <= i < |figures|
    ensures Flatten(figures[..i + 1]) == Flatten(figures[..i]) + figures[i]
  {
    assert figures[..i + 1] == figures[..i] + [figures[i]];
    FlattenAppend(figures[..i], figures[i]);
  }

  lemma RowLinesSnoc(cells: seq<Cell>, row: int)
    requires 0 <= row
    ensures RowLines(cells, row + 1) == RowLines(cells, row) + RowLine(cells, row)
  {
  }

  /** The row loop of one table. */
  method AddRows(content: string, cells: seq<Cell>, rows: int) returns (out: string)
    requires rows >= 0
    ensures out == content + RowLines(cells, rows)
  {
    out := content;
    assert content + RowLines(cells, 0) == content;
    var row := 0;
    while row < rows
      invariant 0 <= row <= rows
      invariant out == content + RowLines(cells, row)
    {
      var rowCells := RowCells(cells, row);
      RowLinesSnoc(cells, row);
      Assoc(content, RowLines(cells, row), RowLine(cells, row));
      if rowCells != [] {
        out := out + ("  " + Join(", ", Map(rowCells, Bracket)) + ",\n");
      } else {
        assert out + RowLine(cells, row) == out;
      }
      row := row + 1;
    }
  }

  /** The three opening lines of a table. */
  method AddTableHead(content: string, cols: int) returns (out: string)
    ensures out == content + TableHead(cols)
  {
    var columns := "  columns: " + IntToString(cols) + ",\n";
    out := content + TableOpen;
    Assoc(content, TableOpen, columns);
    out := out + columns;
    Assoc(content, TableOpen + columns, "  stroke: 0.5pt,\n");
    out := out + "  stroke: 0.5pt,\n";
  }

  /** One table of the table loop. */
  method AddTable(content: string, t: Table) returns (out: string)
    ensures out == content + TableText(t)
  {
    out := content;
    if t.rows > 0 && t.cols > 0 {
      out := AddTableHead(out, t.cols);
      out := AddRows(out, t.cells, t.rows);
      Assoc(content, TableHead(t.cols), RowLines(t.cells, t.rows));
      Assoc(content, TableHead(t.cols) + RowLines(t.cells, t.rows), ")\n\n");
      out := out + ")\n\n";
    } else {
      NoTableText(t);
      assert content + "" == content;
    }
  }

  lemma NoTableText(t: Table)
    requires !(t.rows > 0 && t.cols > 0)
    ensures TableText(t) == ""
  {
  }

  /** The table loop. */
  method AddTables(content: string, tables: seq<Table>) returns (out: string)
    ensures out == content + TablesText(tables)
  {
    out := content;
    var i := 0;
    while i < |tables|
      invariant 0 <= i <= |tables|
      invariant out == content + TablesText(tables[..i])
    {
      MapSnoc(tables, i, TableText);
      FlattenAppend(Map(tables[..i], TableText), TableText(tables[i]));
      Assoc(content, TablesText(tables[..i]), TableText(tables[i]));
      out := AddTable(out, tables[i]);
      i := i + 1;
    }
    assert tables[..i] == tables;
  }

  /** One page of the page loop. */
  method AddPage(content: string, page: PageData, pageNum: nat, stem: string, dir: Option<string>) returns (out: string)
    ensures out == PageStep(content, page, pageNum, stem, dir)
  {
    out := content;
    if pageNum == 1 {
      var title := FindTitle(page.textBlocks, stem);
      out := out + title;
    }
    var body;
    out, body := AddBlocks(out, page.textBlocks, pageNum);
    out := AddParagraphs(out, body);
    out := AddFigures(out, page.images, pageNum, dir);
    out := AddTables(out, page.tables);
  }

  /** `generate_smart_typst_content`. */
  method GenerateSmartTypstContent(pages: seq<PageData>, stem: string, dir: Option<string>) returns (content: string)
    ensures content == SmartContent(pages, stem, dir)
  {
    content := DocumentSetup;
    var i := 0;
    while i < |pages|
      invariant 0 <= i <= |pages|
      invariant content == SmartContent(pages[..i], stem, dir)
    {
      SmartContentSnoc(pages, i, stem, dir);
      content := AddPage(content, pages[i], i + 1, stem, dir);
      i := i + 1;
    }
    assert pages[..i] == pages;
  }

  /** `extract_image_captions_from_text`. */
  method ExtractImageCaptions(blocks: seq<TextBlock>) returns (captions: seq<(string, string)>)
    ensures captions == Captions(blocks)
  {
    captions := [];
    var i := 0;
    while i < |blocks|
      invariant 0 <= i <= |blocks|
      invariant captions == Captions(blocks[..i])
    {
      assert blocks[..i + 1][..i] == blocks[..i];
      var text := Strip(blocks[i].text);
      if blocks[i].font.size < 8.0 && |text| > 50 {
        if exists k :: 0 <= k < |CaptionKeywords| && Contains(Lower(text), CaptionKeywords[k]) {
          captions := captions + [(CaptionKey(|captions| + 1), text)];
        }
      }
      i := i + 1;
    }
    assert blocks[..i] == blocks;
  }

  /** `generate_enhanced_typst_with_ai_analysis`. */
  method GenerateEnhancedTypst(pages: seq<PageData>, stem: string, dir: Option<string>) returns (content: string)
    ensures content == Enhanced(pages, stem, dir)
  {
    content := GenerateSmartTypstContent(pages, stem, dir);
    if dir.Some? {
      content := FixImagePaths(content, dir.value);
    }
  }
}
