/** The stand-alone two-column page generator (`fix_typst_generation.py`):
    text cleaning for Typst, the title and mixed-content heuristics, the
    header / footer / left / right split of a page's text blocks and the
    line-by-line assembly of one page of Typst markup. */
module FixTypst {
  import opened Text
  import opened Seqs

  // ------------------------------------------------------------- clean_text

  /** The three characters `clean_text` escapes with a backslash. */
  predicate IsSpecial(c: char) { c == '"' || c == '[' || c == ']' }

  /** Every special character of `s` after the first is immediately preceded
      by a backslash. */
  predicate EscapedInside(s: string)
  {
    forall i :: 1 <= i < |s| && IsSpecial(s[i]) ==> s[i - 1] == '\\'
  }

  /** Every special character of `s` is immediately preceded by a backslash,
      `prev` standing for the character before `s`. */
  predicate EscapedAfter(prev: char, s: string)
  {
    (s != [] && IsSpecial(s[0]) ==> prev == '\\') && EscapedInside(s)
  }

  function Escape(c: char): string
  {
    if IsSpecial(c) then ['\\', c] else [c]
  }

  /** The three `str.replace` calls of `clean_text` done in one pass. */
  function EscapeSpecials(s: string): (r: string)
    ensures EscapedAfter(' ', r)
    ensures |r| >= |s|
  {
    if s == [] then []
    else
      var t := EscapeSpecials(s[1..]);
      var e := Escape(s[0]);
      var r := e + t;
      assert EscapedInside(r) by {
        forall i | 1 <= i < |r| && IsSpecial(r[i])
          ensures r[i - 1] == '\\'
        {
          if i >= |e| {
            assert r[i] == t[i - |e|];
            if i > |e| { assert r[i - 1] == t[i - |e| - 1]; }
          }
        }
      }
      r
  }

  /** Undoing the escapes: a backslash before a special character is dropped. */
  function Unescape(s: string): string
    decreases |s|
  {
    if s == [] then []
    else if |s| >= 2 && s[0] == '\\' && IsSpecial(s[1]) then [s[1]] + Unescape(s[2..])
    else [s[0]] + Unescape(s[1..])
  }

  /** Escaping loses nothing: unescaping gives the text back. */
  lemma {:induction false} EscapeRoundTrip(s: string)
    ensures Unescape(EscapeSpecials(s)) == s
  {
    if s != [] {
      EscapeRoundTrip(s[1..]);
      var t := EscapeSpecials(s[1..]);
      if IsSpecial(s[0]) {
        assert EscapeSpecials(s)[2..] == t;
      } else {
        assert EscapeSpecials(s) == [s[0]] + t;
        assert t == [] || !IsSpecial(t[0]);
        assert EscapeSpecials(s)[1..] == t;
      }
      assert s == [s[0]] + s[1..];
    }
  }

  /** `text.replace('"', '\\"')`, then `'['`, then `']'`. */
  function ReplaceSpecials(s: string): string
  {
    ReplaceAll(ReplaceAll(ReplaceAll(s, "\"", "\\\""), "[", "\\["), "]", "\\]")
  }

  lemma MapCharCons(c0: char, t: string, c: char, repl: string)
    ensures MapChar([c0] + t, c, repl) == (if c0 == c then repl else [c0]) + MapChar(t, c, repl)
  {
    assert ([c0] + t)[1..] == t;
  }

  /** The three replacements in sequence are the one-pass escaping. */
  lemma {:induction false} ReplaceSpecialsIsEscape(s: string)
    ensures ReplaceSpecials(s) == EscapeSpecials(s)
  {
    ReplaceCharIsMap(s, '"', "\\\"");
    ReplaceCharIsMap(MapChar(s, '"', "\\\""), '[', "\\[");
    ReplaceCharIsMap(MapChar(MapChar(s, '"', "\\\""), '[', "\\["), ']', "\\]");
    MapChainIsEscape(s);
  }

  lemma {:induction false} MapChainIsEscape(s: string)
    ensures MapChar(MapChar(MapChar(s, '"', "\\\""), '[', "\\["), ']', "\\]") == EscapeSpecials(s)
  {
    if s != [] {
      var h, t := s[0], s[1..];
      assert s == [h] + t;
      MapChainIsEscape(t);
      var m1 := MapChar(t, '"', "\\\"");
      var m2 := MapChar(m1, '[', "\\[");
      var a := if h == '"' then "\\\"" else [h];
      assert MapChar(s, '"', "\\\"") == a + m1;
      MapCharAppend(a, m1, '[', "\\[");
      var b := if h == '[' then "\\[" else a;
      if h == '"' {
        MapCharAbsent(a, '[', "\\[");
      } else {
        MapCharCons(h, [], '[', "\\[");
      }
      assert MapChar(a + m1, '[', "\\[") == b + m2;
      MapCharAppend(b, m2, ']', "\\]");
      if h == '"' || h == '[' {
        MapCharAbsent(b, ']', "\\]");
      } else {
        MapCharCons(h, [], ']', "\\]");
      }
    }
  }

  /** `clean_text`: escape quotes and square brackets, collapse every white-space
      run to one space, strip. */
  function CleanText(text: string): string
  {
    Strip(CollapseSpaces(ReplaceSpecials(text)))
  }

  /** Collapsing white space keeps every special character behind its backslash. */
  lemma {:induction false} CollapseKeepsEscapes(prev: char, s: string)
    requires EscapedAfter(prev, s)
    ensures EscapedAfter(prev, CollapseSpaces(s))
    decreases |s|
  {
    if s != [] {
      if IsSpace(s[0]) {
        var n := RunLength(s, IsSpace);
        var t := s[n..];
        EscapedInfix(prev, s, n, |s|);
        CollapseKeepsEscapes(' ', t);
        var c := CollapseSpaces(t);
        assert CollapseSpaces(s) == " " + c;
        ConsEscaped(' ', c);
      } else {
        var t := s[1..];
        EscapedInfix(prev, s, 1, |s|);
        CollapseKeepsEscapes(s[0], t);
        var c := CollapseSpaces(t);
        assert CollapseSpaces(s) == [s[0]] + c;
        ConsEscaped(s[0], c);
      }
    }
  }

  /** Putting a character in front of text escaped after it. */
  lemma ConsEscaped(c: char, t: string)
    requires EscapedAfter(c, t)
    ensures EscapedInside([c] + t)
  {
    var r := [c] + t;
    forall i | 1 <= i < |r| && IsSpecial(r[i])
      ensures r[i - 1] == '\\'
    {
      assert r[i] == t[i - 1];
      if i > 1 { assert r[i - 1] == t[i - 2]; }
    }
  }

  /** An infix of escaped text is escaped, the character before it standing in
      for `prev`. */
  lemma EscapedInfix(prev: char, s: string, a: int, b: int)
    requires EscapedAfter(prev, s) && 0 <= a <= b <= |s|
    ensures EscapedAfter(if a == 0 then prev else s[a - 1], s[a..b])
  {
    var t := s[a..b];
    forall i | 1 <= i < |t| && IsSpecial(t[i])
      ensures t[i - 1] == '\\'
    {
      assert t[i] == s[a + i];
      assert t[i - 1] == s[a + i - 1];
    }
    if a < b { assert t[0] == s[a]; }
  }

  /** Escaped text whose preceding character is no backslash cannot start
      with a special character. */
  lemma EscapedRestart(q: char, s: string)
    requires EscapedAfter(q, s) && q != '\\'
    ensures EscapedAfter(' ', s)
  {
  }

  lemma StripKeepsEscapes(s: string)
    requires EscapedAfter(' ', s)
    ensures EscapedAfter(' ', Strip(s))
  {
    EscapedInfix(' ', s, StripOffset(s), StripEnd(s));
  }

  lemma SingleSpacedInfix(s: string, a: int, b: int)
    requires SingleSpaced(s) && 0 <= a <= b <= |s|
    ensures SingleSpaced(s[a..b])
  {
    var t := s[a..b];
    assert forall i :: 0 <= i < |t| ==> t[i] == s[a + i];
  }

  /** What `clean_text` guarantees: stripped, single-spaced, and every quote and
      square bracket escaped by the backslash just before it (so the result
      never starts with one of them). */
  lemma CleanTextShape(text: string)
    ensures IsStripped(CleanText(text)) && SingleSpaced(CleanText(text))
    ensures EscapedAfter(' ', CleanText(text))
  {
    var e := ReplaceSpecials(text);
    ReplaceSpecialsIsEscape(text);
    CollapseKeepsEscapes(' ', e);
    StripKeepsEscapes(CollapseSpaces(e));
    CollapseSpacesSingleSpaced(e);
    SingleSpacedInfix(CollapseSpaces(e), StripOffset(CollapseSpaces(e)), StripEnd(CollapseSpaces(e)));
  }

  lemma {:induction false} EscapeBlank(s: string)
    ensures IsBlank(EscapeSpecials(s)) <==> IsBlank(s)
  {
    if s != [] {
      EscapeBlank(s[1..]);
      assert EscapeSpecials(s) == Escape(s[0]) + EscapeSpecials(s[1..]);
      BlankConcat(Escape(s[0]), EscapeSpecials(s[1..]));
      BlankConcat([s[0]], s[1..]);
      assert [s[0]] + s[1..] == s;
    }
  }

  lemma BlankConcat(a: string, b: string)
    ensures IsBlank(a + b) <==> IsBlank(a) && IsBlank(b)
  {
    assert forall i :: 0 <= i < |a| ==> (a + b)[i] == a[i];
    assert forall i :: 0 <= i < |b| ==> (a + b)[|a| + i] == b[i];
  }

  lemma {:induction false} CollapseBlank(s: string)
    ensures IsBlank(CollapseSpaces(s)) <==> IsBlank(s)
    decreases |s|
  {
    if s != [] {
      if IsSpace(s[0]) {
        var n := RunLength(s, IsSpace);
        CollapseBlank(s[n..]);
        BlankAfterSpace(CollapseSpaces(s[n..]));
        BlankAfterSpaces(s, n);
      } else {
        assert CollapseSpaces(s)[0] == s[0];
      }
    }
  }

  lemma BlankAfterSpace(c: string)
    ensures IsBlank(" " + c) <==> IsBlank(c)
  {
    assert forall i :: 0 <= i < |c| ==> (" " + c)[i + 1] == c[i];
  }

  lemma BlankAfterSpaces(s: string, n: int)
    requires 0 <= n <= |s| && forall i :: 0 <= i < n ==> IsSpace(s[i])
    ensures IsBlank(s) <==> IsBlank(s[n..])
  {
    assert forall i :: n <= i < |s| ==> s[i] == s[n..][i - n];
  }

  /** Cleaning gives "" exactly for blank text, so the emptiness test after
      cleaning agrees with the `strip()` test used when the blocks are sorted
      into columns. */
  lemma CleanTextEmptyIffBlank(text: string)
    ensures CleanText(text) == "" <==> IsBlank(text)
  {
    ReplaceSpecialsIsEscape(text);
    EscapeBlank(text);
    CollapseBlank(ReplaceSpecials(text));
    StripEmptyIffBlank(CollapseSpaces(ReplaceSpecials(text)));
  }

  // ------------------------------------------------ is_title, separate_mixed_content

  /** Index of the first word of `words` that occurs in `s`. */
  function FirstContained(s: string, words: seq<string>): (r: Option<nat>)
    ensures r.Some? ==> r.value < |words| && Contains(s, words[r.value])
    ensures r.Some? ==> forall j :: 0 <= j < r.value ==> !Contains(s, words[j])
    ensures r.None? <==> forall j :: 0 <= j < |words| ==> !Contains(s, words[j])
  {
    if words == [] then None
    else if Contains(s, words[0]) then Some(0)
    else match FirstContained(s, words[1..])
      case None => None
      case Some(k) => Some(k + 1)
  }

  const TitleKeywords: seq<string> := [
    "ACKNOWLEDGEMENTS", "TABLE OF CONTENTS", "SYSTEMATIC SECTION",
    "INTRODUCTION", "SPAWNING", "DEVELOPMENT", "HYBRID SPECIES"]

  /** `is_title`: the first keyword, in list order, found in the upper-cased
      text, provided the text is shorter than 100 characters. */
  function IsTitle(text: string): (r: Option<string>)
    ensures r.Some? <==> |text| < 100 && exists j :: 0 <= j < |TitleKeywords| && Contains(Upper(text), TitleKeywords[j])
    ensures r.Some? ==> exists j :: (0 <= j < |TitleKeywords| && r.value == TitleKeywords[j] &&
      Contains(Upper(text), r.value) && (forall k :: 0 <= k < j ==> !Contains(Upper(text), TitleKeywords[k])))
  {
    FirstFound(Upper(text), TitleKeywords, |text| < 100)
  }

  /** The first word of `words` found in `s`, when `enabled`. */
  function FirstFound(s: string, words: seq<string>, enabled: bool): (r: Option<string>)
    ensures r.Some? <==> enabled && exists j :: 0 <= j < |words| && Contains(s, words[j])
    ensures r.Some? ==> exists j :: (0 <= j < |words| && r.value == words[j] &&
      Contains(s, r.value) && (forall k :: 0 <= k < j ==> !Contains(s, words[k])))
  {
    if enabled then
      match FirstContained(s, words)
      case Some(j) => Some(words[j])
      case None => None
    else None
  }

  const Separators: seq<string> := ["TABLE OF", "SYSTEMATIC", "INTRODUCTION", "Genus ", "Family ", "Species "]

  /** `separate_mixed_content`: split at the first occurrence of the first
      separator (in list order) the text contains, keeping the separator on the
      second part; without a separator, the text alone unless it is blank. */
  function SeparateMixedContent(text: string): (r: seq<string>)
  {
    SplitAtFirst(text, Separators)
  }

  function SplitAtFirst(text: string, seps: seq<string>): (r: seq<string>)
  {
    match FirstContained(text, seps)
    case Some(j) =>
      SplitAt(text, seps[j], Find(text, seps[j]).value)
    case None => if Strip(text) != "" then [text] else []
  }

  /** `text.split(sep, 1)` at the occurrence `k`, both parts stripped and the
      separator put back in front of the second. */
  function SplitAt(text: string, sep: string, k: nat): seq<string>
    requires k + |sep| <= |text|
  {
    [Strip(text[..k]), sep + Strip(text[k + |sep|..])]
  }

  lemma SeparatorsNonEmpty()
    ensures forall j :: 0 <= j < |Separators| ==> |Separators[j]| > 0
  {
  }

  /** Splitting at the first occurrence of `sep`: the part before it does not
      contain it. */
  lemma SplitAtOccurrence(text: string, sep: string)
    requires |sep| > 0 && Find(text, sep).Some?
    ensures var k := Find(text, sep).value;
      text == text[..k] + sep + text[k + |sep|..] && !Contains(text[..k], sep)
  {
    var k := Find(text, sep).value;
    OccurrenceSplits(text, sep, k);
    NoEarlierOccurrence(text, sep, k);
  }

  lemma OccurrenceSplits(text: string, sep: string, k: nat)
    requires OccursAt(text, sep, k)
    ensures text == text[..k] + sep + text[k + |sep|..]
  {
    assert text[k..k + |sep|] == sep;
    assert text == text[..k] + text[k..k + |sep|] + text[k + |sep|..];
  }

  /** No occurrence starts before `k`: the text before `k` does not contain `sep`. */
  lemma NoEarlierOccurrence(text: string, sep: string, k: nat)
    requires |sep| > 0 && k <= |text|
    requires forall j :: 0 <= j < k ==> !OccursAt(text, sep, j)
    ensures !Contains(text[..k], sep)
  {
    var pre := text[..k];
    forall i | 0 <= i <= |pre| && OccursAt(pre, sep, i)
      ensures false
    {
      assert pre[i..i + |sep|] == text[i..i + |sep|];
      assert OccursAt(text, sep, i);
    }
  }

  /** The split: the text is `pre + sep + post` with `sep` the first separator
      it contains and `pre` free of it; without a separator it is kept whole,
      and dropped only when blank. */
  lemma SplitAtFirstSplits(text: string, seps: seq<string>)
    requires forall j :: 0 <= j < |seps| ==> |seps[j]| > 0
    ensures |SplitAtFirst(text, seps)| == 2 <==> exists j :: 0 <= j < |seps| && Contains(text, seps[j])
    ensures |SplitAtFirst(text, seps)| == 2 ==>
      exists j, pre, post :: (0 <= j < |seps| && text == pre + seps[j] + post
        && !Contains(pre, seps[j])
        && (forall k :: 0 <= k < j ==> !Contains(text, seps[k]))
        && SplitAtFirst(text, seps) == [Strip(pre), seps[j] + Strip(post)])
    ensures |SplitAtFirst(text, seps)| < 2 ==>
      SplitAtFirst(text, seps) == if IsBlank(text) then [] else [text]
  {
    match FirstContained(text, seps)
    case Some(j) =>
      var sep := seps[j];
      SplitAtOccurrence(text, sep);
      var k := Find(text, sep).value;
      var pre, post := text[..k], text[k + |sep|..];
      assert SplitAtFirst(text, seps) == SplitAt(text, sep, k) == [Strip(pre), sep + Strip(post)];
    case None =>
      StripEmptyIffBlank(text);
  }

  lemma SeparateMixedContentSplits(text: string)
    ensures |SeparateMixedContent(text)| == 2 <==> exists j :: 0 <= j < |Separators| && Contains(text, Separators[j])
    ensures |SeparateMixedContent(text)| == 2 ==>
      exists j, pre, post :: (0 <= j < |Separators| && text == pre + Separators[j] + post
        && !Contains(pre, Separators[j])
        && (forall k :: 0 <= k < j ==> !Contains(text, Separators[k]))
        && SeparateMixedContent(text) == [Strip(pre), Separators[j] + Strip(post)])
    ensures |SeparateMixedContent(text)| < 2 ==>
      SeparateMixedContent(text) == if IsBlank(text) then [] else [text]
  {
    SeparatorsNonEmpty();
    SplitAtFirstSplits(text, Separators);
  }

  // ------------------------------------------------------------ page layout

  /** A text block of the page data: its text and the top-left corner of its
      bounding box. */
  datatype TextBlock = TextBlock(text: string, x: real, y: real)

  /** The page data: text blocks and the file names of the page's images. */
  datatype PageData = PageData(textBlocks: seq<TextBlock>, images: seq<string>)

  predicate HasText(b: TextBlock) { Strip(b.text) != "" }
  predicate InHeader(b: TextBlock) { HasText(b) && b.y < 30.0 }
  predicate InFooter(b: TextBlock) { HasText(b) && !(b.y < 30.0) && b.y > 500.0 }
  predicate InLeftColumn(b: TextBlock) { HasText(b) && 30.0 <= b.y <= 500.0 && b.x < 400.0 }
  predicate InRightColumn(b: TextBlock) { HasText(b) && 30.0 <= b.y <= 500.0 && !(b.x < 400.0) }

  /** The sort key `bbox[1]`. */
  function ByTop(b: TextBlock): Key { Key(b.y, 0.0, 0.0) }

  /** A bucket of the page: its blocks in page order, then stably sorted by top. */
  function Bucket(page: PageData, inBucket: TextBlock -> bool): seq<TextBlock>
  {
    SortByKey(Filter(page.textBlocks, inBucket), ByTop)
  }

  /** Every block with text lands in exactly one of the four buckets. */
  lemma {:induction false} BucketsPartition(bs: seq<TextBlock>)
    ensures multiset(Filter(bs, InHeader)) + multiset(Filter(bs, InFooter))
          + multiset(Filter(bs, InLeftColumn)) + multiset(Filter(bs, InRightColumn))
         == multiset(Filter(bs, HasText))
  {
    if bs != [] { BucketsPartition(bs[1..]); }
  }

  /** The four sorted buckets of a page split its blocks with text, each in
      top-to-bottom order. */
  lemma PageBuckets(page: PageData)
    ensures multiset(Bucket(page, InHeader)) + multiset(Bucket(page, InFooter))
          + multiset(Bucket(page, InLeftColumn)) + multiset(Bucket(page, InRightColumn))
         == multiset(Filter(page.textBlocks, HasText))
    ensures SortedBy(Bucket(page, InHeader), ByTop) && SortedBy(Bucket(page, InFooter), ByTop)
    ensures SortedBy(Bucket(page, InLeftColumn), ByTop) && SortedBy(Bucket(page, InRightColumn), ByTop)
  {
    BucketsPartition(page.textBlocks);
  }

  // ----------------------------------------------------------------- lines

  const PageSetup: seq<string> := [
    "#set page(paper: \"a4\", margin: (top: 2cm, bottom: 2cm, left: 2cm, right: 2cm))",
    "#set text(font: \"Times New Roman\", size: 8pt, lang: \"en\")",
    "#set par(justify: true, leading: 0.6em)",
    ""]

  const ColumnsOpen := "#columns(2, gutter: 1cm)["
  const ColumnBreak := "#colbreak()"
  const ColumnsClose := "]"
  const LeftComment := "// === 左栏：目录和索引 ==="
  const RightComment := "// === 右栏：正文内容 ==="
  const ImagesComment := "// === 图片 ==="
  const FooterComment := "// === 页脚 ==="

  /** The lines one header block adds. */
  function HeaderLines(b: TextBlock): seq<string>
  {
    var t := CleanText(b.text);
    if t == "" then [] else ["#align(right)[" + t + "]", ""]
  }

  /** The heading made of a title block: the keyword when the cleaned text
      contains it as written, else the text, cut to 50 characters and
      marked with "..." when longer. */
  function TitleHeading(t: string, keyword: string): string
  {
    "== " + (if Contains(t, keyword) then keyword else if |t| > 50 then t[..50] + "..." else t)
  }

  function Paragraph(part: string): seq<string> { [part, ""] }
  predicate NonEmpty(part: string) { part != "" }

  /** The lines one left-column block adds: a heading for a title, else each
      non-empty part of the separated content. */
  function LeftLines(b: TextBlock): seq<string>
  {
    var t := CleanText(b.text);
    if t == "" then []
    else match IsTitle(t)
      case Some(keyword) => [TitleHeading(t, keyword), ""]
      case None => Flatten(Map(Filter(SeparateMixedContent(t), NonEmpty), Paragraph))
  }

  /** The lines one right-column block adds: a short text naming the
      introduction becomes its heading, anything else a paragraph. */
  function RightLines(b: TextBlock): seq<string>
  {
    var t := CleanText(b.text);
    if t == "" then []
    else if Contains(Upper(t), "INTRODUCTION") && |t| < 50 then ["== INTRODUCTION", ""]
    else [t, ""]
  }

  /** The five lines of the figure of image `i` (numbered from 1). */
  function FigureLines(i: nat, filename: string): seq<string>
  {
    ["#figure(",
     "  image(\"Chaetodontidae_3_images/" + filename + "\", width: 80%),",
     "  caption: [Figure " + NatToString(i + 1) + "]",
     ")",
     ""]
  }

  function Figures(images: seq<string>): seq<seq<string>>
  {
    seq(|images|, i requires 0 <= i < |images| => FigureLines(i, images[i]))
  }

  function ImageSection(images: seq<string>): seq<string>
  {
    if images == [] then [] else [ImagesComment, ""] + Flatten(Figures(images))
  }

  function FooterLine(b: TextBlock): seq<string>
  {
    var t := CleanText(b.text);
    if t == "" then [] else ["#align(center)[#text(size: 7pt)[" + t + "]]"]
  }

  function FooterSection(footer: seq<TextBlock>): seq<string>
  {
    if footer == [] then [] else [FooterComment] + Flatten(Map(footer, FooterLine))
  }

  /** The lines of the two-column block. */
  function ColumnLines(left: seq<TextBlock>, right: seq<TextBlock>): seq<string>
  {
    [ColumnsOpen] + ColumnBody(left, right) + [ColumnsClose, ""]
  }

  /** The lines between the opening and the closing line of the column block. */
  function ColumnBody(left: seq<TextBlock>, right: seq<TextBlock>): seq<string>
  {
    Section(["", LeftComment, ""], left, LeftLines) + Section([ColumnBreak, "", RightComment, ""], right, RightLines)
  }

  /** Some fixed lines, then the lines of each item in turn. */
  function Section<T>(intro: seq<string>, items: seq<T>, linesOf: T -> seq<string>): seq<string>
  {
    intro + Flatten(Map(items, linesOf))
  }

  /** All lines of the page, in order. */
  function PageLines(page: PageData): seq<string>
  {
    PageSetup + Flatten(Map(Bucket(page, InHeader), HeaderLines))
      + ColumnLines(Bucket(page, InLeftColumn), Bucket(page, InRightColumn))
      + ImageSection(page.images) + FooterSection(Bucket(page, InFooter))
  }

  /** `generate_correct_typst`: the page's lines joined by newlines. */
  function CorrectTypst(page: PageData): string
  {
    Join("\n", PageLines(page))
  }

  // ----------------------------------------------------- escaping in the lines

  /** No special character and no backslash. */
  predicate Plain(s: string)
  {
    forall i :: 0 <= i < |s| ==> !IsSpecial(s[i]) && s[i] != '\\'
  }

  lemma PlainEscaped(prev: char, s: string)
    requires Plain(s)
    ensures EscapedAfter(prev, s)
  {
  }

  lemma EscapedConcat(prev: char, a: string, b: string)
    requires EscapedAfter(prev, a)
    requires EscapedAfter(if a == [] then prev else a[|a| - 1], b)
    ensures EscapedAfter(prev, a + b)
  {
    var r := a + b;
    forall i | 1 <= i < |r| && IsSpecial(r[i])
      ensures r[i - 1] == '\\'
    {
      if i >= |a| {
        assert r[i] == b[i - |a|];
        if i > |a| { assert r[i - 1] == b[i - |a| - 1]; }
      } else {
        assert r[i] == a[i] && r[i - 1] == a[i - 1];
      }
    }
    if a == [] { assert r == b; }
  }

  // One lemma per literal keeps each proof about a literal's characters small.
  lemma TitleKeywordPlain0() ensures Plain(TitleKeywords[0]) {}
  lemma TitleKeywordPlain1() ensures Plain(TitleKeywords[1]) {}
  lemma TitleKeywordPlain2() ensures Plain(TitleKeywords[2]) {}
  lemma TitleKeywordPlain3() ensures Plain(TitleKeywords[3]) {}
  lemma TitleKeywordPlain4() ensures Plain(TitleKeywords[4]) {}
  lemma TitleKeywordPlain5() ensures Plain(TitleKeywords[5]) {}
  lemma TitleKeywordPlain6() ensures Plain(TitleKeywords[6]) {}
  lemma SeparatorPlain0() ensures Plain(Separators[0]) && |Separators[0]| > 0 {}
  lemma SeparatorPlain1() ensures Plain(Separators[1]) && |Separators[1]| > 0 {}
  lemma SeparatorPlain2() ensures Plain(Separators[2]) && |Separators[2]| > 0 {}
  lemma SeparatorPlain3() ensures Plain(Separators[3]) && |Separators[3]| > 0 {}
  lemma SeparatorPlain4() ensures Plain(Separators[4]) && |Separators[4]| > 0 {}
  lemma SeparatorPlain5() ensures Plain(Separators[5]) && |Separators[5]| > 0 {}
  lemma IntroductionHeadingPlain() ensures Plain("== INTRODUCTION") {}
  lemma LeftCommentPlain() ensures Plain(LeftComment) {}
  lemma RightCommentPlain() ensures Plain(RightComment) {}
  lemma ColumnBreakPlain() ensures Plain(ColumnBreak) {}

  lemma TitleKeywordsPlain(j: int)
    requires 0 <= j < |TitleKeywords|
    ensures Plain(TitleKeywords[j])
  {
    if j == 0 { TitleKeywordPlain0(); } else if j == 1 { TitleKeywordPlain1(); } else if j == 2 { TitleKeywordPlain2(); } else if j == 3 { TitleKeywordPlain3(); } else if j == 4 { TitleKeywordPlain4(); } else if j == 5 { TitleKeywordPlain5(); } else { TitleKeywordPlain6(); }
  }

  lemma SeparatorsPlain(j: int)
    requires 0 <= j < |Separators|
    ensures Plain(Separators[j]) && |Separators[j]| > 0
  {
    if j == 0 { SeparatorPlain0(); } else if j == 1 { SeparatorPlain1(); } else if j == 2 { SeparatorPlain2(); } else if j == 3 { SeparatorPlain3(); } else if j == 4 { SeparatorPlain4(); } else { SeparatorPlain5(); }
  }

  /** Both parts of a split of escaped text at an occurrence of a plain
      separator are escaped. */
  lemma SplitPartsEscaped(t: string, sep: string, k: int)
    requires EscapedAfter(' ', t) && Plain(sep) && |sep| > 0 && OccursAt(t, sep, k)
    ensures EscapedAfter(' ', SplitAt(t, sep, k)[0]) && EscapedAfter(' ', SplitAt(t, sep, k)[1])
  {
    SeparatedHeadEscaped(t, k);
    SeparatedTailEscaped(t, sep, k);
  }

  lemma SeparatedHeadEscaped(t: string, k: int)
    requires EscapedAfter(' ', t) && 0 <= k <= |t|
    ensures EscapedAfter(' ', Strip(t[..k]))
  {
    EscapedInfix(' ', t, 0, k);
    StripKeepsEscapes(t[..k]);
  }

  lemma SeparatedTailEscaped(t: string, sep: string, k: int)
    requires EscapedAfter(' ', t) && Plain(sep) && |sep| > 0 && OccursAt(t, sep, k)
    ensures EscapedAfter(' ', sep + Strip(t[k + |sep|..]))
  {
    var post := t[k + |sep|..];
    EscapedInfix(' ', t, k + |sep|, |t|);
    assert t[k + |sep| - 1] == sep[|sep| - 1];
    EscapedRestart(t[k + |sep| - 1], post);
    StripKeepsEscapes(post);
    PlainEscaped(' ', sep);
    EscapedRestart(sep[|sep| - 1], Strip(post));
    EscapedConcat(' ', sep, Strip(post));
  }

  lemma SplitAtFirstEscaped(t: string, seps: seq<string>)
    requires EscapedAfter(' ', t)
    requires forall j :: 0 <= j < |seps| ==> Plain(seps[j]) && |seps[j]| > 0
    ensures forall part :: part in SplitAtFirst(t, seps) ==> EscapedAfter(' ', part)
  {
    match FirstContained(t, seps)
    case Some(j) =>
      SplitPartsEscaped(t, seps[j], Find(t, seps[j]).value);
    case None =>
  }

  /** The lines a paragraph list adds are its parts and blank lines. */
  lemma {:induction false} ParagraphLines(parts: seq<string>, line: string)
    requires line in Flatten(Map(parts, Paragraph))
    ensures line == "" || line in parts
  {
    FlattenMemberOf(Map(parts, Paragraph), line);
  }

  lemma TitleHeadingEscaped(t: string, keyword: string)
    requires EscapedAfter(' ', t) && Plain(keyword)
    ensures EscapedAfter(' ', TitleHeading(t, keyword))
  {
    var rest := if Contains(t, keyword) then keyword else if |t| > 50 then t[..50] + "..." else t;
    if Contains(t, keyword) {
      PlainEscaped(' ', keyword);
    } else if |t| > 50 {
      EscapedInfix(' ', t, 0, 50);
      PlainEscaped(t[49], "...");
      EscapedConcat(' ', t[..50], "...");
    }
    EscapedRestart(' ', rest);
    PlainEscaped(' ', "== ");
    EscapedConcat(' ', "== ", rest);
  }

  lemma SeparatedLinesEscaped(t: string, line: string)
    requires EscapedAfter(' ', t)
    requires line in Flatten(Map(Filter(SeparateMixedContent(t), NonEmpty), Paragraph))
    ensures EscapedAfter(' ', line)
  {
    ParagraphLines(Filter(SeparateMixedContent(t), NonEmpty), line);
    if line != "" {
      FilterMembers(SeparateMixedContent(t), NonEmpty);
      forall j | 0 <= j < |Separators| ensures Plain(Separators[j]) && |Separators[j]| > 0 {
        SeparatorsPlain(j);
      }
      SplitAtFirstEscaped(t, Separators);
    }
  }

  lemma LeftLinesEscaped(b: TextBlock, line: string)
    requires line in LeftLines(b)
    ensures EscapedAfter(' ', line)
  {
    var t := CleanText(b.text);
    CleanTextShape(b.text);
    match IsTitle(t)
    case Some(keyword) =>
      if line != "" {
        var j :| 0 <= j < |TitleKeywords| && keyword == TitleKeywords[j];
        TitleKeywordsPlain(j);
        TitleHeadingEscaped(t, keyword);
      }
    case None =>
      SeparatedLinesEscaped(t, line);
  }

  lemma RightLinesEscaped(b: TextBlock, line: string)
    requires line in RightLines(b)
    ensures EscapedAfter(' ', line)
  {
    CleanTextShape(b.text);
    IntroductionHeadingPlain();
    PlainEscaped(' ', "== INTRODUCTION");
  }

  /** Every line of the sequence is escaped text. */
  predicate AllEscaped(lines: seq<string>)
  {
    forall i :: 0 <= i < |lines| ==> EscapedAfter(' ', lines[i])
  }

  lemma AllEscapedConcat(a: seq<string>, b: seq<string>)
    requires AllEscaped(a) && AllEscaped(b)
    ensures AllEscaped(a + b)
  {
    assert forall i :: |a| <= i < |a + b| ==> (a + b)[i] == b[i - |a|];
  }

  lemma LeftColumnEscaped(left: seq<TextBlock>)
    ensures AllEscaped(Flatten(Map(left, LeftLines)))
  {
    var l := Flatten(Map(left, LeftLines));
    forall i | 0 <= i < |l| ensures EscapedAfter(' ', l[i]) {
      FlattenMemberOf(Map(left, LeftLines), l[i]);
      var j :| 0 <= j < |left| && l[i] in LeftLines(left[j]);
      LeftLinesEscaped(left[j], l[i]);
    }
  }

  lemma RightColumnEscaped(right: seq<TextBlock>)
    ensures AllEscaped(Flatten(Map(right, RightLines)))
  {
    var r := Flatten(Map(right, RightLines));
    forall i | 0 <= i < |r| ensures EscapedAfter(' ', r[i]) {
      FlattenMemberOf(Map(right, RightLines), r[i]);
      var j :| 0 <= j < |right| && r[i] in RightLines(right[j]);
      RightLinesEscaped(right[j], r[i]);
    }
  }

  lemma FixedLinesEscaped()
    ensures AllEscaped(["", LeftComment, ""]) && AllEscaped([ColumnBreak, "", RightComment, ""])
  {
    LeftCommentPlain();
    RightCommentPlain();
    ColumnBreakPlain();
    PlainEscaped(' ', LeftComment);
    PlainEscaped(' ', RightComment);
    PlainEscaped(' ', ColumnBreak);
  }

  /** Every line inside the column block is escaped text: every quote and
      square bracket of the page text is preceded by a backslash. */
  lemma ColumnBodyEscaped(left: seq<TextBlock>, right: seq<TextBlock>)
    ensures AllEscaped(ColumnBody(left, right))
  {
    LeftColumnEscaped(left);
    RightColumnEscaped(right);
    FixedLinesEscaped();
    var l := Flatten(Map(left, LeftLines));
    var r := Flatten(Map(right, RightLines));
    AllEscapedConcat(["", LeftComment, ""], l);
    AllEscapedConcat([ColumnBreak, "", RightComment, ""], r);
    AllEscapedConcat(Section(["", LeftComment, ""], left, LeftLines), Section([ColumnBreak, "", RightComment, ""], right, RightLines));
  }

  /** The column block opens with `#columns(...)[` and ends with a line `]`,
      and no line in between is `]`: page text cannot close the block early. */
  lemma ColumnBlockClosed(left: seq<TextBlock>, right: seq<TextBlock>)
    ensures var c := ColumnLines(left, right);
      |c| >= 3 && c[0] == ColumnsOpen && c[|c| - 2] == ColumnsClose
      && forall i :: 0 < i < |c| - 2 ==> c[i] != ColumnsClose
  {
    var body := ColumnBody(left, right);
    ColumnBodyEscaped(left, right);
    var c := ColumnLines(left, right);
    forall i | 0 < i < |c| - 2 ensures c[i] != ColumnsClose {
      assert c[i] == body[i - 1];
      if c[i] == ColumnsClose { assert IsSpecial(body[i - 1][0]); }
    }
  }

  /** Image `i` gets figure lines `2 + 5 * i` to `6 + 5 * i` of the image
      section, naming its file and numbered `i + 1`. */
  lemma ImageSectionFigures(images: seq<string>, i: int)
    requires 0 <= i < |images|
    ensures |ImageSection(images)| == 2 + 5 * |images|
    ensures ImageSection(images)[0] == ImagesComment
    ensures ImageSection(images)[2 + 5 * i] == "#figure("
    ensures ImageSection(images)[3 + 5 * i] == "  image(\"Chaetodontidae_3_images/" + images[i] + "\", width: 80%),"
    ensures ImageSection(images)[4 + 5 * i] == "  caption: [Figure " + NatToString(i + 1) + "]"
  {
    var f := Figures(images);
    FlattenLength(f, 5);
    FlattenAt(f, 5, i, 0);
    FlattenAt(f, 5, i, 1);
    FlattenAt(f, 5, i, 2);
  }

  // ------------------------------------------------------- the generator

  /** The first loop of `generate_correct_typst`: every block with text goes
      to the header, the footer, the left or the right column, in page order. */
  method SplitIntoColumns(blocks: seq<TextBlock>) returns (header: seq<TextBlock>, footer: seq<TextBlock>, left: seq<TextBlock>, right: seq<TextBlock>)
    ensures header == Filter(blocks, InHeader) && footer == Filter(blocks, InFooter)
    ensures left == Filter(blocks, InLeftColumn) && right == Filter(blocks, InRightColumn)
  {
    header, footer, left, right := [], [], [], [];
    var i := 0;
    while i < |blocks|
      invariant 0 <= i <= |blocks|
      invariant header == Filter(blocks[..i], InHeader) && footer == Filter(blocks[..i], InFooter)
      invariant left == Filter(blocks[..i], InLeftColumn) && right == Filter(blocks[..i], InRightColumn)
    {
      FilterSnoc(blocks, i, InHeader);
      FilterSnoc(blocks, i, InFooter);
      FilterSnoc(blocks, i, InLeftColumn);
      FilterSnoc(blocks, i, InRightColumn);
      var block := blocks[i];
      if Strip(block.text) != "" {
        if block.y < 30.0 {
          header := header + [block];
        } else if block.y > 500.0 {
          footer := footer + [block];
        } else if block.x < 400.0 {
          left := left + [block];
        } else {
          right := right + [block];
        }
      }
      i := i + 1;
    }
    assert blocks[..i] == blocks;
  }

  /** A loop `for item in items: content_lines.extend(lines_of(item))`. */
  method ExtendEach<T>(lines: seq<string>, items: seq<T>, linesOf: T -> seq<string>) returns (out: seq<string>)
    ensures out == lines + Flatten(Map(items, linesOf))
  {
    out := lines;
    var i := 0;
    while i < |items|
      invariant 0 <= i <= |items|
      invariant out == lines + Flatten(Map(items[..i], linesOf))
    {
      MapSnoc(items, i, linesOf);
      FlattenAppend(Map(items[..i], linesOf), linesOf(items[i]));
      out := out + linesOf(items[i]);
      i := i + 1;
    }
    assert items[..i] == items;
  }

  /** The figure loop: five lines per image, numbered from 1. */
  method ExtendFigures(lines: seq<string>, images: seq<string>) returns (out: seq<string>)
    ensures out == lines + Flatten(Figures(images))
  {
    out := lines;
    var i := 0;
    while i < |images|
      invariant 0 <= i <= |images|
      invariant out == lines + Flatten(Figures(images)[..i])
    {
      assert Figures(images)[..i + 1] == Figures(images)[..i] + [FigureLines(i, images[i])];
      FlattenAppend(Figures(images)[..i], FigureLines(i, images[i]));
      out := out + FigureLines(i, images[i]);
      i := i + 1;
    }
    assert Figures(images)[..i] == Figures(images);
  }

  /** Appending fixed lines, then the lines of each item. */
  method ExtendSection<T>(lines: seq<string>, intro: seq<string>, items: seq<T>, linesOf: T -> seq<string>) returns (out: seq<string>)
    ensures out == lines + Section(intro, items, linesOf)
  {
    out := ExtendEach(lines + intro, items, linesOf);
  }

  /** An opening line, two sections and closing lines, appended in turn. */
  method ExtendBlock<T>(lines: seq<string>, open: string, intro1: seq<string>, items1: seq<T>, linesOf1: T -> seq<string>,
                        intro2: seq<string>, items2: seq<T>, linesOf2: T -> seq<string>, close: seq<string>)
    returns (out: seq<string>)
    ensures out == lines + ([open] + (Section(intro1, items1, linesOf1) + Section(intro2, items2, linesOf2)) + close)
  {
    out := lines + [open];
    out := ExtendSection(out, intro1, items1, linesOf1);
    out := ExtendSection(out, intro2, items2, linesOf2);
    out := out + close;
  }

  /** The column block, appended as the source appends it. */
  method ExtendColumns(lines: seq<string>, left: seq<TextBlock>, right: seq<TextBlock>) returns (out: seq<string>)
    ensures out == lines + ColumnLines(left, right)
  {
    out := ExtendBlock(lines, ColumnsOpen, ["", LeftComment, ""], left, LeftLines,
                       [ColumnBreak, "", RightComment, ""], right, RightLines, [ColumnsClose, ""]);
  }

  method ExtendImages(lines: seq<string>, images: seq<string>) returns (out: seq<string>)
    ensures out == lines + ImageSection(images)
  {
    out := lines;
    if |images| > 0 {
      out := out + [ImagesComment, ""];
      out := ExtendFigures(out, images);
    }
  }

  method ExtendFooter(lines: seq<string>, footer: seq<TextBlock>) returns (out: seq<string>)
    ensures out == lines + FooterSection(footer)
  {
    out := lines;
    if |footer| > 0 {
      out := out + [FooterComment];
      out := ExtendEach(out, footer, FooterLine);
    }
  }

  /** `generate_correct_typst`: the lines are built section by section as the
      source does, and the result is exactly the page's lines joined by
      newlines. */
  method GenerateCorrectTypst(page: PageData) returns (r: string)
    ensures r == CorrectTypst(page)
  {
    var header, footer, left, right := SplitIntoColumns(page.textBlocks);
    left := SortByKey(left, ByTop);
    right := SortByKey(right, ByTop);
    header := SortByKey(header, ByTop);
    footer := SortByKey(footer, ByTop);
    var lines := ExtendEach(PageSetup, header, HeaderLines);
    lines := ExtendColumns(lines, left, right);
    lines := ExtendImages(lines, page.images);
    lines := ExtendFooter(lines, footer);
    r := Join("\n", lines);
  }
}
