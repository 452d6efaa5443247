/** Structural classification of text blocks: which blocks are headings and at
    what level, how the remaining blocks group into paragraphs, and which runs
    of marker-prefixed blocks form lists. The analyzer's configuration is its
    default one; mutation of the blocks' `element_type` is returned as a new
    sequence of blocks. */
module ContentAnalyzer {
  import opened Text
  import opened Seqs
  import opened Models
  import opened Patterns

  /** Default `heading_font_size_threshold`. */
  const HeadingSizeThreshold: real := 2.0
  /** Default `paragraph_line_spacing_threshold`. */
  const LineSpacingThreshold: real := 5.0
  /** Default `paragraph_indent_threshold`. */
  const IndentThreshold: real := 20.0

  // ------------------------------------------------------ average font size

  predicate Positive(x: real) { x > 0.0 }

  function FontSizes(blocks: seq<TextBlock>): (r: seq<real>)
    ensures |r| == |blocks| && forall i :: 0 <= i < |blocks| ==> r[i] == blocks[i].font.size
  {
    seq(|blocks|, i requires 0 <= i < |blocks| => blocks[i].font.size)
  }

  function Sum(xs: seq<real>): real
  {
    if xs == [] then 0.0 else xs[0] + Sum(xs[1..])
  }

  lemma {:induction false} SumBounds(xs: seq<real>, lo: real, hi: real)
    requires forall i :: 0 <= i < |xs| ==> lo <= xs[i] <= hi
    ensures lo * (|xs| as real) <= Sum(xs) <= hi * (|xs| as real)
  {
    if xs != [] {
      SumBounds(xs[1..], lo, hi);
    }
  }

  lemma {:induction false} SumPositive(xs: seq<real>)
    requires xs != [] && forall i :: 0 <= i < |xs| ==> xs[i] > 0.0
    ensures Sum(xs) > 0.0
  {
    if |xs| > 1 {
      SumPositive(xs[1..]);
    }
  }

  /** `_calculate_average_font_size`: the mean of the positive font sizes, 12.0
      when there are none. */
  function AverageFontSize(blocks: seq<TextBlock>): (r: real)
    ensures r > 0.0
    ensures Filter(FontSizes(blocks), Positive) == [] ==> r == 12.0
  {
    if blocks == [] then 12.0
    else
      var sizes := Filter(FontSizes(blocks), Positive);
      if sizes == [] then 12.0
      else
        FilterMembers(FontSizes(blocks), Positive);
        SumPositive(sizes);
        Sum(sizes) / (|sizes| as real)
  }

  /** The mean lies within any bounds on the positive sizes. */
  lemma AverageFontSizeWithin(blocks: seq<TextBlock>, lo: real, hi: real)
    requires exists i :: 0 <= i < |blocks| && blocks[i].font.size > 0.0
    requires forall i :: 0 <= i < |blocks| && blocks[i].font.size > 0.0 ==> lo <= blocks[i].font.size <= hi
    ensures lo <= AverageFontSize(blocks) <= hi
  {
    var all := FontSizes(blocks);
    var sizes := Filter(all, Positive);
    FilterMembers(all, Positive);
    var i :| 0 <= i < |blocks| && blocks[i].font.size > 0.0;
    assert all[i] in sizes;
    forall k | 0 <= k < |sizes| ensures lo <= sizes[k] <= hi {
      var j :| 0 <= j < |all| && all[j] == sizes[k];
    }
    MeanWithin(sizes, lo, hi);
  }

  lemma MeanWithin(xs: seq<real>, lo: real, hi: real)
    requires xs != [] && forall i :: 0 <= i < |xs| ==> lo <= xs[i] <= hi
    ensures lo <= Sum(xs) / (|xs| as real) <= hi
  {
    SumBounds(xs, lo, hi);
    MeanBounds(Sum(xs), |xs| as real, lo, hi);
  }

  lemma MeanBounds(total: real, n: real, lo: real, hi: real)
    requires n > 0.0 && lo * n <= total <= hi * n
    ensures lo <= total / n <= hi
  {
    var avg := total / n;
    assert avg * n == total;
  }

  // ------------------------------------------------------------- headings

  /** `_is_centered`: a stand-in test, the left edge lies beyond x = 100. */
  predicate IsCentered(b: TextBlock)
  {
    b.bbox.x0 > 100.0
  }

  /** `_is_heading`: larger than the mean by more than the threshold, or bold,
      or its stripped text matches a heading pattern, or it is short and
      "centred". */
  predicate IsHeading(b: TextBlock, avg: real)
  {
    || b.font.size > avg + HeadingSizeThreshold
    || b.IsBold()
    || MatchesHeadingPattern(Strip(b.text))
    || (|Strip(b.text)| < 50 && IsCentered(b))
  }

  /** `_determine_heading_level`: 1, 2, 3 or 4 as the size exceeds the mean by
      more than 8, 4, 2 or not. */
  function DetermineHeadingLevel(size: real, avg: real): (l: int)
    ensures 1 <= l <= 4
    ensures l == 1 <==> size - avg > 8.0
    ensures l == 2 <==> 4.0 < size - avg <= 8.0
    ensures l == 3 <==> 2.0 < size - avg <= 4.0
    ensures l == 4 <==> size - avg <= 2.0
  {
    var diff := size - avg;
    if diff > 8.0 then 1 else if diff > 4.0 then 2 else if diff > 2.0 then 3 else 4
  }

  /** A larger font never gets a deeper provisional level. */
  lemma HeadingLevelMonotone(s1: real, s2: real, avg: real)
    requires s1 >= s2
    ensures DetermineHeadingLevel(s1, avg) <= DetermineHeadingLevel(s2, avg)
  {
  }

  /** A block that is a heading by its size alone gets a level above 4;
      level 4 is left to headings found by boldness, pattern or position. */
  lemma SizeHeadingLevel(b: TextBlock, avg: real)
    requires b.font.size > avg + HeadingSizeThreshold
    ensures IsHeading(b, avg)
    ensures DetermineHeadingLevel(b.font.size, avg) <= 3
  {
  }

  /** A block that is not bold, matches no heading pattern, and is long or
      lies left of x = 100 is a heading exactly when its size exceeds the
      mean by more than the threshold. */
  lemma PlainBlockHeadingBySize(b: TextBlock, avg: real)
    requires !b.IsBold() && !MatchesHeadingPattern(Strip(b.text))
    requires |Strip(b.text)| >= 50 || b.bbox.x0 <= 100.0
    ensures IsHeading(b, avg) <==> b.font.size > avg + 2.0
  {
  }

  /** `_extract_heading_numbering`: the numbering of the stripped text. */
  function ExtractHeadingNumbering(text: string): Option<string>
  {
    NumberingOf(Strip(text))
  }

  /** The numbering of a stripped text `t`: the longest leading dotted number,
      else the leading 第…章/节 mark, else none. */
  function NumberingOf(t: string): (r: Option<string>)
    ensures r.Some? ==> r.value != [] && r.value <= t
    ensures t != [] && IsDigit(t[0]) ==>
              r.Some? && IsDottedNumber(r.value)
              && !(|r.value| < |t| && IsDigit(t[|r.value|]))
              && !(|r.value| + 1 < |t| && t[|r.value|] == '.' && IsDigit(t[|r.value| + 1]))
    ensures (t == [] || !IsDigit(t[0])) ==>
              (r.Some? <==> OrdinalHeading(t, '章') || OrdinalHeading(t, '节'))
    ensures r.Some? && !IsDigit(t[0]) ==>
              |r.value| >= 3 && t[0] == '第' && (r.value[|r.value| - 1] == '章' || r.value[|r.value| - 1] == '节')
              && forall i :: 1 <= i < |r.value| - 1 ==> IsOrdinalChar(r.value[i])
  {
    var n := DottedNumberLength(t);
    if n > 0 then Some(t[..n])
    else
      var m := OrdinalMarkLength(t);
      if m > 0 then Some(t[..m]) else None
  }

  /** Each test of `_is_heading` makes a heading on its own: boldness, a
      heading pattern such as a number followed by a full stop, or a short
      text starting right of x = 100 (the stand-in for `_is_centered`); a block
      that is none of these is no larger than the mean plus the threshold. */
  lemma HeadingByStyleOrPattern(b: TextBlock, avg: real)
    ensures b.IsBold() ==> IsHeading(b, avg)
    ensures RunThen(Strip(b.text), IsDigit, c => c == '.') ==> IsHeading(b, avg)
    ensures |Strip(b.text)| < 50 && b.bbox.x0 > 100.0 ==> IsHeading(b, avg)
    ensures !IsHeading(b, avg) ==>
              b.font.size <= avg + HeadingSizeThreshold && !b.IsBold() && !MatchesHeadingPattern(Strip(b.text))
  {
    HeadingPatternsAreMatches(Strip(b.text));
  }

  /** A heading whose stripped text is a dotted number, a space and a title
      is numbered by exactly that number. */
  lemma NumberedHeadingNumbering(text: string, number: string, title: string)
    requires IsDottedNumber(number) && Strip(text) == number + " " + title
    ensures ExtractHeadingNumbering(text) == Some(number)
  {
    var t := Strip(text);
    assert t[|number|] == ' ';
    assert number < t;
    DottedNumberMaximal(t, number);
    assert t[..|number|] == number;
  }

  /** A heading whose stripped text starts with a chapter mark `第…章` or
      `第…节` is numbered by exactly that mark, whatever follows it. */
  lemma OrdinalHeadingNumbering(text: string, mark: string, title: string)
    requires |mark| >= 3 && mark[0] == '第' && (mark[|mark| - 1] == '章' || mark[|mark| - 1] == '节')
    requires forall i :: 1 <= i < |mark| - 1 ==> IsOrdinalChar(mark[i])
    requires Strip(text) == mark + title
    ensures ExtractHeadingNumbering(text) == Some(mark)
  {
    var t := Strip(text);
    var closer := mark[|mark| - 1];
    assert t[0] == '第' && !IsDigit(t[0]);
    OrdinalHeadingIsMatch(t, closer);
    assert t[1..][|mark| - 2] == closer;
    assert forall i :: 0 <= i < |mark| - 2 ==> t[1..][i] == mark[i + 1];
    assert RunThen(t[1..], IsOrdinalChar, c => c == closer);
    var r := NumberingOf(t).value;
    assert r <= t && mark <= t;
    assert r == mark;
  }

  /** The heading `analyze_headings` builds for a heading block, before levels
      are adjusted. */
  function HeadingOf(b: TextBlock, avg: real): Heading
  {
    MakeHeading(b.text, DetermineHeadingLevel(b.font.size, avg), b.page, b.bbox, b.font,
                ExtractHeadingNumbering(b.text))
  }

  /** `HeadingOf` for a given mean size, as a value. */
  function HeadingMaker(avg: real): TextBlock -> Heading
  {
    b => HeadingOf(b, avg)
  }

  /** The size ranks `_adjust_heading_levels` assigns: the distinct sizes
      larger than `x` among the headings. */
  function LargerSizes(hs: seq<Heading>, x: real): set<real>
  {
    set i | 0 <= i < |hs| && hs[i].font.size > x :: hs[i].font.size
  }

  /** The level of a heading of size `x`: its rank among the distinct sizes
      sorted from largest, capped at 6. */
  function LevelForSize(hs: seq<Heading>, x: real): (l: int)
    ensures 1 <= l <= 6
  {
    var rank := 1 + |LargerSizes(hs, x)|;
    if rank < 6 then rank else 6
  }

  /** The headings after `_adjust_heading_levels`. */
  function AdjustedLevels(hs: seq<Heading>): (r: seq<Heading>)
    ensures |r| == |hs|
    ensures forall i :: 0 <= i < |hs| ==> r[i] == hs[i].(level := LevelForSize(hs, hs[i].font.size))
  {
    seq(|hs|, i requires 0 <= i < |hs| => hs[i].(level := LevelForSize(hs, hs[i].font.size)))
  }

  /** The largest size gets level 1. */
  lemma LargestSizeIsLevelOne(hs: seq<Heading>, i: int)
    requires 0 <= i < |hs| && forall j :: 0 <= j < |hs| ==> hs[j].font.size <= hs[i].font.size
    ensures AdjustedLevels(hs)[i].level == 1
  {
    assert LargerSizes(hs, hs[i].font.size) == {};
  }

  /** A strictly larger size gets a strictly smaller level, until the cap. */
  lemma LargerSizeShallowerLevel(hs: seq<Heading>, i: int, j: int)
    requires 0 <= i < |hs| && 0 <= j < |hs| && hs[i].font.size > hs[j].font.size
    ensures AdjustedLevels(hs)[i].level <= AdjustedLevels(hs)[j].level
    ensures AdjustedLevels(hs)[j].level < 6 ==> AdjustedLevels(hs)[i].level < AdjustedLevels(hs)[j].level
  {
    var a := LargerSizes(hs, hs[i].font.size);
    var b := LargerSizes(hs, hs[j].font.size);
    assert a <= b;
    SubsetCard(a, b, hs[i].font.size);
  }

  lemma SubsetCard(a: set<real>, b: set<real>, x: real)
    requires a <= b && x in b && x !in a
    ensures |a| < |b|
  {
    var rest := b - {x} - a;
    assert b == a + rest + {x};
    assert a * rest == {} && x !in a + rest;
    assert |b - {x}| == |b| - 1;
  }

  predicate Distinct<T(==)>(s: seq<T>)
  {
    forall i, j :: 0 <= i < j < |s| ==> s[i] != s[j]
  }

  lemma {:induction false} DistinctCount<T>(s: seq<T>, x: T)
    requires Distinct(s)
    ensures multiset(s)[x] <= 1
  {
    if s != [] {
      assert s == [s[0]] + s[1..];
      assert Distinct(s[1..]);
      DistinctCount(s[1..], x);
      if s[0] == x {
        assert x !in s[1..];
      }
    }
  }

  lemma RepeatedCount<T>(s: seq<T>, i: int, j: int)
    requires 0 <= i < j < |s| && s[i] == s[j]
    ensures multiset(s)[s[i]] >= 2
  {
    assert s == s[..i] + [s[i]] + s[i + 1..j] + [s[j]] + s[j + 1..];
  }

  lemma DistinctPermutation<T>(a: seq<T>, b: seq<T>)
    requires Distinct(a) && multiset(a) == multiset(b)
    ensures Distinct(b)
  {
    forall i, j | 0 <= i < j < |b| ensures b[i] != b[j] {
      if b[i] == b[j] {
        RepeatedCount(b, i, j);
        DistinctCount(a, b[i]);
      }
    }
  }

  lemma {:induction false} DistinctCard<T>(s: seq<T>)
    requires Distinct(s)
    ensures |set x | x in s| == |s|
  {
    if s != [] {
      assert Distinct(s[1..]);
      DistinctCard(s[1..]);
      assert (set x | x in s) == {s[0]} + (set x | x in s[1..]);
      assert s[0] !in (set x | x in s[1..]);
    }
  }

  /** Sorting sizes from largest: the key of `sorted(..., reverse=True)`. */
  function Descending(x: real): Key
  {
    Key(-x, 0.0, 0.0)
  }

  /** In the distinct sizes sorted from largest, the index of a size counts
      the distinct sizes above it. */
  lemma RankIsIndex(hs: seq<Heading>, sorted: seq<real>, k: int)
    requires Distinct(sorted) && SortedBy(sorted, Descending)
    requires forall x :: x in sorted <==> exists i :: 0 <= i < |hs| && hs[i].font.size == x
    requires 0 <= k < |sorted|
    ensures |LargerSizes(hs, sorted[k])| == k
  {
    var x := sorted[k];
    forall y | y in LargerSizes(hs, x) ensures y in sorted[..k] {
      var i :| 0 <= i < |hs| && hs[i].font.size > x && hs[i].font.size == y;
      assert y in sorted;
      var m :| 0 <= m < |sorted| && sorted[m] == y;
    }
    forall y | y in sorted[..k] ensures y in LargerSizes(hs, x) {
      var m :| 0 <= m < k && sorted[m] == y;
      assert KeyLe(Descending(sorted[m]), Descending(sorted[k]));
      assert y in sorted;
      var i :| 0 <= i < |hs| && hs[i].font.size == y;
    }
    assert LargerSizes(hs, x) == set y | y in sorted[..k];
    DistinctCard(sorted[..k]);
  }

  /** `_adjust_heading_levels`: collects the distinct sizes, sorts them from
      largest, and gives every heading of the k-th size level min(k, 6). */
  method AdjustHeadingLevels(hs: seq<Heading>) returns (r: seq<Heading>)
    ensures r == AdjustedLevels(hs)
  {
    if hs == [] {
      return hs;
    }
    var sorted := SortedSizes(hs);
    r := hs;
    for level := 0 to |sorted|
      invariant |r| == |hs|
      invariant forall i :: 0 <= i < |hs| ==> r[i] == RelevelledUpTo(hs, sorted, level, i)
    {
      var size := sorted[level];
      RankIsIndex(hs, sorted, level);
      var next := Relevel(r, size, if level + 1 < 6 then level + 1 else 6);
      RelevelStep(hs, sorted, level, r, next);
      r := next;
    }
    assert sorted[..|sorted|] == sorted;
  }

  /** Heading `i` once the first `level` sizes have had their levels set. */
  function RelevelledUpTo(hs: seq<Heading>, sorted: seq<real>, level: int, i: int): Heading
    requires 0 <= level <= |sorted| && 0 <= i < |hs|
  {
    if hs[i].font.size in sorted[..level] then hs[i].(level := LevelForSize(hs, hs[i].font.size)) else hs[i]
  }

  lemma RelevelStep(hs: seq<Heading>, sorted: seq<real>, level: int, r: seq<Heading>, next: seq<Heading>)
    requires Distinct(sorted) && 0 <= level < |sorted|
    requires |LargerSizes(hs, sorted[level])| == level
    requires |r| == |hs| && forall i :: 0 <= i < |hs| ==> r[i] == RelevelledUpTo(hs, sorted, level, i)
    requires |next| == |r|
    requires forall i :: 0 <= i < |r| ==>
      next[i] == if r[i].font.size == sorted[level] then r[i].(level := if level + 1 < 6 then level + 1 else 6) else r[i]
    ensures forall i :: 0 <= i < |hs| ==> next[i] == RelevelledUpTo(hs, sorted, level + 1, i)
  {
    assert sorted[..level + 1] == sorted[..level] + [sorted[level]];
    assert sorted[level] !in sorted[..level];
    forall i | 0 <= i < |hs| ensures next[i] == RelevelledUpTo(hs, sorted, level + 1, i) {
      assert r[i].font == hs[i].font;
    }
  }

  /** `sorted(level_sizes.keys(), reverse=True)`: the distinct sizes from
      largest to smallest. */
  method SortedSizes(hs: seq<Heading>) returns (sorted: seq<real>)
    ensures Distinct(sorted) && SortedBy(sorted, Descending)
    ensures forall x :: x in sorted <==> exists j :: 0 <= j < |hs| && hs[j].font.size == x
  {
    var sizes := DistinctSizes(hs);
    sorted := SortByKey(sizes, Descending);
    DistinctPermutation(sizes, sorted);
    forall x ensures x in sorted <==> x in sizes {
      assert x in sorted <==> x in multiset(sorted);
      assert x in sizes <==> x in multiset(sizes);
    }
  }

  /** The distinct font sizes of the headings, in order of first use: the
      keys of `_adjust_heading_levels`' dictionary. */
  method DistinctSizes(hs: seq<Heading>) returns (sizes: seq<real>)
    ensures Distinct(sizes)
    ensures forall x :: x in sizes <==> exists j :: 0 <= j < |hs| && hs[j].font.size == x
  {
    sizes := [];
    for i := 0 to |hs|
      invariant Distinct(sizes)
      invariant forall x :: x in sizes <==> exists j :: 0 <= j < i && hs[j].font.size == x
    {
      if hs[i].font.size !in sizes {
        sizes := sizes + [hs[i].font.size];
      }
    }
  }

  /** The inner loop of `_adjust_heading_levels`: every heading of the given
      size gets the given level; the rest are unchanged. */
  method Relevel(hs: seq<Heading>, size: real, level: int) returns (r: seq<Heading>)
    ensures |r| == |hs|
    ensures forall i :: 0 <= i < |hs| ==> r[i] == if hs[i].font.size == size then hs[i].(level := level) else hs[i]
  {
    r := hs;
    for j := 0 to |r|
      invariant |r| == |hs|
      invariant forall i :: 0 <= i < |hs| ==> r[i] == if i < j && hs[i].font.size == size then hs[i].(level := level) else hs[i]
    {
      if r[j].font.size == size {
        r := r[j := r[j].(level := level)];
      }
    }
  }

  /** The heading test for a given mean size, as a value. */
  function HeadingTest(avg: real): TextBlock -> bool
  {
    b => IsHeading(b, avg)
  }

  /** The block after `analyze_headings` has tagged it. */
  function TagHeading(b: TextBlock, avg: real): TextBlock
  {
    if IsHeading(b, avg) then b.(elementType := HeadingElem) else b
  }

  /** `analyze_headings`: every heading block, in order, becomes a heading
      whose level is then its size rank; heading blocks are tagged HEADING. */
  method AnalyzeHeadings(blocks: seq<TextBlock>) returns (headings: seq<Heading>, tagged: seq<TextBlock>)
    ensures headings == AdjustedLevels(Map(Filter(blocks, HeadingTest(AverageFontSize(blocks))),
                                           HeadingMaker(AverageFontSize(blocks))))
    ensures |tagged| == |blocks|
    ensures forall i :: 0 <= i < |blocks| ==> tagged[i] == TagHeading(blocks[i], AverageFontSize(blocks))
  {
    var avg := AverageFontSize(blocks);
    var found;
    found, tagged := CollectHeadings(blocks, HeadingTest(avg), HeadingMaker(avg));
    headings := AdjustHeadingLevels(found);
  }

  /** The loop of `analyze_headings` for a given heading test, before the
      levels are adjusted: accepted blocks become headings, in order, and are
      tagged HEADING. */
  method CollectHeadings(blocks: seq<TextBlock>, isHeading: TextBlock -> bool, toHeading: TextBlock -> Heading)
    returns (found: seq<Heading>, tagged: seq<TextBlock>)
    ensures found == Map(Filter(blocks, isHeading), toHeading)
    ensures |tagged| == |blocks|
    ensures forall i :: 0 <= i < |blocks| ==> tagged[i] == Tag(blocks[i], isHeading(blocks[i]), HeadingElem)
  {
    found := [];
    tagged := [];
    for i := 0 to |blocks|
      invariant found == Map(Filter(blocks[..i], isHeading), toHeading)
      invariant |tagged| == i
      invariant forall k :: 0 <= k < i ==> tagged[k] == Tag(blocks[k], isHeading(blocks[k]), HeadingElem)
    {
      var b := blocks[i];
      MapFilterSnoc(blocks, i, isHeading, toHeading);
      found := found + if isHeading(b) then [toHeading(b)] else [];
      tagged := tagged + [Tag(b, isHeading(b), HeadingElem)];
    }
    assert blocks[..|blocks|] == blocks;
  }

  /** The block with its type set to `t` when `yes` holds. */
  function Tag(b: TextBlock, yes: bool, t: ElementType): TextBlock
  {
    if yes then b.(elementType := t) else b
  }

  // ------------------------------------------------------------ paragraphs

  /** `_determine_alignment`: "left" when every block starts within 5 of the
      first one, else "justify". */
  function DetermineAlignment(blocks: seq<TextBlock>): (a: Alignment)
    ensures a == Left || a == Justify
    ensures blocks != [] ==> (a == Left <==> forall i :: 0 <= i < |blocks| ==> Abs(blocks[i].bbox.x0 - blocks[0].bbox.x0) < 5.0)
  {
    if blocks == [] then Left
    else if forall i :: 0 <= i < |blocks| ==> Abs(blocks[i].bbox.x0 - blocks[0].bbox.x0) < 5.0 then Left
    else Justify
  }

  /** The boxes of a list of elements, by `box`. */
  function Boxes<T>(xs: seq<T>, box: T -> BoundingBox): (r: seq<BoundingBox>)
    ensures |r| == |xs| && forall i :: 0 <= i < |xs| ==> r[i] == box(xs[i])
  {
    seq(|xs|, i requires 0 <= i < |xs| => box(xs[i]))
  }

  function BlockBox(b: TextBlock): BoundingBox { b.bbox }
  function ItemBox(item: ListItem): BoundingBox { item.bbox }

  /** `_create_paragraph`: the union box, the alignment, the first block's
      left edge as indent and the first block's page. */
  function CreateParagraph(blocks: seq<TextBlock>): (p: Paragraph)
    requires blocks != []
    ensures p.textBlocks == blocks && p.page == blocks[0].page && p.indent == blocks[0].bbox.x0
    ensures forall i :: 0 <= i < |blocks| ==> p.bbox.Contains(blocks[i].bbox)
    ensures exists i :: 0 <= i < |blocks| && blocks[i].bbox.x0 == p.bbox.x0
    ensures exists i :: 0 <= i < |blocks| && blocks[i].bbox.x1 == p.bbox.x1
    ensures exists i :: 0 <= i < |blocks| && blocks[i].bbox.y0 == p.bbox.y0
    ensures exists i :: 0 <= i < |blocks| && blocks[i].bbox.y1 == p.bbox.y1
    ensures p.alignment == DetermineAlignment(blocks)
    ensures p.spacingBefore == 0.0 && p.spacingAfter == 0.0
  {
    Paragraph(blocks, blocks[0].page, UnionAll(Boxes(blocks, BlockBox)), DetermineAlignment(blocks),
              blocks[0].bbox.x0, 0.0, 0.0)
  }

  /** `next` continues the paragraph that `b` ends: same page, vertical gap at
      most 5, left edges at most 20 apart. */
  predicate Continues(b: TextBlock, next: TextBlock)
  {
    && b.page == next.page
    && !(next.bbox.y0 - b.bbox.y1 > LineSpacingThreshold)
    && !(Abs(b.bbox.x0 - next.bbox.x0) > IndentThreshold)
  }

  /** The sort key `(page, y0, x0)`. */
  function ParagraphKey(b: TextBlock): Key
  {
    Key(b.page as real, b.bbox.y0, b.bbox.x0)
  }

  predicate NotHeading(b: TextBlock)
  {
    b.elementType != HeadingElem
  }

  function ParagraphBlocks(ps: seq<Paragraph>): (r: seq<seq<TextBlock>>)
    ensures |r| == |ps| && forall j :: 0 <= j < |ps| ==> r[j] == ps[j].textBlocks
  {
    seq(|ps|, j requires 0 <= j < |ps| => ps[j].textBlocks)
  }

  /** `analyze_paragraphs`: the blocks not tagged HEADING, sorted by
      (page, y0, x0), cut into non-empty paragraphs exactly where a block does
      not continue the one before it. */
  method AnalyzeParagraphs(blocks: seq<TextBlock>) returns (ps: seq<Paragraph>)
    ensures Flatten(ParagraphBlocks(ps)) == SortByKey(Filter(blocks, NotHeading), ParagraphKey)
    ensures forall j :: 0 <= j < |ps| ==> IsChain(ps[j].textBlocks, Continues)
    ensures ChainsBreakApart(ParagraphBlocks(ps), Continues)
    ensures forall j :: 0 <= j < |ps| ==> ps[j].textBlocks != [] && ps[j] == CreateParagraph(ps[j].textBlocks)
  {
    var sorted := SortByKey(Filter(blocks, NotHeading), ParagraphKey);
    var groups := SplitChains(sorted, Continues);
    ps := seq(|groups|, j requires 0 <= j < |groups| => CreateParagraph(groups[j]));
    assert ParagraphBlocks(ps) == groups;
  }

  /** The `should_end` test of `analyze_paragraphs` for the block at `i`:
      the last block, or the next one is on another page, more than 5 below,
      or indented more than 20 differently. */
  predicate EndsParagraph(sorted: seq<TextBlock>, i: int)
    requires 0 <= i < |sorted|
    ensures EndsParagraph(sorted, i) <==> i == |sorted| - 1 || !Continues(sorted[i], sorted[i + 1])
  {
    if i < |sorted| - 1 then
      var b, next := sorted[i], sorted[i + 1];
      if b.page != next.page then true
      else if next.bbox.y0 - b.bbox.y1 > LineSpacingThreshold then true
      else Abs(b.bbox.x0 - next.bbox.x0) > IndentThreshold
    else true
  }

  // ----------------------------------------------------------------- lists

  datatype ListMatch = ListMatch(kind: BulletKind, marker: string)

  /** The index of the first of list patterns k, k+1, ..., 4 that matches
      `t`, none when none does. */
  function FirstListMatch(t: string, k: nat): (r: Option<nat>)
    requires k <= 5
    ensures r.None? <==> forall j :: k <= j < 5 ==> ListPatternMatch(t, j).None?
    ensures r.Some? ==> k <= r.value < 5 && ListPatternMatch(t, r.value).Some?
                        && forall j :: k <= j < r.value ==> ListPatternMatch(t, j).None?
  {
    FirstIndex(PatternHits(t), k, 5)
  }

  /** The list patterns that match `t`, as a test on their indices. */
  function PatternHits(t: string): nat -> bool
  {
    (j: nat) => j < 5 && ListPatternMatch(t, j).Some?
  }

  /** The first index from k below n that passes `p`, none when none does. */
  function FirstIndex(p: nat -> bool, k: nat, n: nat): (r: Option<nat>)
    requires k <= n
    ensures r.None? <==> forall j :: k <= j < n ==> !p(j)
    ensures r.Some? ==> k <= r.value < n && p(r.value) && forall j :: k <= j < r.value ==> !p(j)
    decreases n - k
  {
    if k == n then None
    else if p(k) then Some(k)
    else FirstIndex(p, k + 1, n)
  }

  /** The kind `_match_list_pattern` reads off the matched text. */
  function MarkerKind(m: string): BulletKind
  {
    if '•' in m || '·' in m then BulletMark
    else if exists i :: 0 <= i < |m| && IsDigit(m[i]) then NumberMark
    else if exists i :: 0 <= i < |m| && IsAsciiLetter(m[i]) then LetterMark
    else BulletMark
  }

  /** The kind each list pattern's matches get: numbers for `\d+[.、]` and
      `[(（]\d+[)）]`, letters for `[a-zA-Z][.、)]`, bullets for the bullet
      characters and for Chinese numerals. */
  function PatternKind(k: nat): BulletKind
  {
    if k == 1 || k == 4 then NumberMark else if k == 2 then LetterMark else BulletMark
  }

  /** Every match of list pattern `k` is classified as `PatternKind(k)`: the
      kind depends only on which pattern matched. */
  lemma MarkerKindOfPattern(m: string, k: nat)
    requires k < 5 && MarkerShape(m, k)
    ensures MarkerKind(m) == PatternKind(k)
  {
    var a, b :| 0 <= a < b <= |m| && (forall i :: 0 <= i < a ==> IsSpace(m[i]))
                && IsListBody(m[a..b], k) && (forall i :: b <= i < |m| ==> IsSpace(m[i]));
    BodyKind(m, a, b, k);
  }

  lemma BodyKind(m: string, a: nat, b: nat, k: nat)
    requires k < 5 && a < b <= |m| && IsListBody(m[a..b], k)
    requires forall i :: 0 <= i < a ==> IsSpace(m[i])
    requires forall i :: b <= i < |m| ==> IsSpace(m[i])
    ensures MarkerKind(m) == PatternKind(k)
  {
    var u := m[a..b];
    assert forall i :: a <= i < b ==> m[i] == u[i - a];
    if k == 0 {
      BulletKind0(m, a, b);
    } else if k == 1 {
      NumberKind1(m, a, b);
    } else if k == 2 {
      LetterKind2(m, a, b);
    } else if k == 3 {
      CjkKind3(m, a, b);
    } else {
      ParenKind4(m, a, b);
    }
  }

  lemma BulletKind0(m: string, a: nat, b: nat)
    requires a < b <= |m| && forall i :: a <= i < b ==> IsBulletChar(m[i])
    requires forall i :: 0 <= i < a ==> IsSpace(m[i])
    requires forall i :: b <= i < |m| ==> IsSpace(m[i])
    ensures MarkerKind(m) == BulletMark
  {
    BodyKindOf(m, a, b, IsBulletChar);
  }

  lemma NumberKind1(m: string, a: nat, b: nat)
    requires a + 1 < b <= |m| && forall i :: a <= i < b ==> IsDigit(m[i]) || IsNumberSep(m[i])
    requires IsDigit(m[a])
    requires forall i :: 0 <= i < a ==> IsSpace(m[i])
    requires forall i :: b <= i < |m| ==> IsSpace(m[i])
    ensures MarkerKind(m) == NumberMark
  {
    BodyKindOf(m, a, b, c => IsDigit(c) || IsNumberSep(c));
  }

  lemma LetterKind2(m: string, a: nat, b: nat)
    requires a + 1 < b <= |m| && forall i :: a <= i < b ==> IsAsciiLetter(m[i]) || IsItemSep(m[i])
    requires IsAsciiLetter(m[a])
    requires forall i :: 0 <= i < a ==> IsSpace(m[i])
    requires forall i :: b <= i < |m| ==> IsSpace(m[i])
    ensures MarkerKind(m) == LetterMark
  {
    BodyKindOf(m, a, b, c => IsAsciiLetter(c) || IsItemSep(c));
  }

  lemma CjkKind3(m: string, a: nat, b: nat)
    requires a < b <= |m| && forall i :: a <= i < b ==> IsCjkNumeral(m[i]) || IsItemSep(m[i])
    requires forall i :: 0 <= i < a ==> IsSpace(m[i])
    requires forall i :: b <= i < |m| ==> IsSpace(m[i])
    ensures MarkerKind(m) == BulletMark
  {
    BodyKindOf(m, a, b, c => IsCjkNumeral(c) || IsItemSep(c));
  }

  lemma ParenKind4(m: string, a: nat, b: nat)
    requires a + 1 < b <= |m| && forall i :: a <= i < b ==> IsDigit(m[i]) || IsOpenParen(m[i]) || IsCloseParen(m[i])
    requires IsDigit(m[a + 1])
    requires forall i :: 0 <= i < a ==> IsSpace(m[i])
    requires forall i :: b <= i < |m| ==> IsSpace(m[i])
    ensures MarkerKind(m) == NumberMark
  {
    BodyKindOf(m, a, b, c => IsDigit(c) || IsOpenParen(c) || IsCloseParen(c));
  }

  /** A marker body of characters of one class, with white space around it. */
  lemma BodyKindOf(m: string, a: nat, b: nat, cls: char -> bool)
    requires a <= b <= |m| && forall i :: a <= i < b ==> cls(m[i])
    requires forall i :: 0 <= i < a ==> IsSpace(m[i])
    requires forall i :: b <= i < |m| ==> IsSpace(m[i])
    ensures (forall c :: cls(c) ==> c != '•' && c != '·' && !IsAsciiLetter(c)) && (exists i :: 0 <= i < |m| && IsDigit(m[i])) ==> MarkerKind(m) == NumberMark
    ensures (forall c :: cls(c) ==> c != '•' && c != '·' && !IsDigit(c)) && (exists i :: 0 <= i < |m| && IsAsciiLetter(m[i])) ==> MarkerKind(m) == LetterMark
    ensures (forall c :: cls(c) ==> !IsDigit(c) && !IsAsciiLetter(c)) ==> MarkerKind(m) == BulletMark
  {
    KindOfChars(m, cls);
  }

  /** The kind of a text made of white space and characters of a class:
      what the class admits decides it. */
  lemma KindOfChars(m: string, cls: char -> bool)
    requires forall i :: 0 <= i < |m| ==> IsSpace(m[i]) || cls(m[i])
    ensures (forall c :: cls(c) ==> c != '•' && c != '·' && !IsAsciiLetter(c)) && (exists i :: 0 <= i < |m| && IsDigit(m[i])) ==> MarkerKind(m) == NumberMark
    ensures (forall c :: cls(c) ==> c != '•' && c != '·' && !IsDigit(c)) && (exists i :: 0 <= i < |m| && IsAsciiLetter(m[i])) ==> MarkerKind(m) == LetterMark
    ensures (forall c :: cls(c) ==> !IsDigit(c) && !IsAsciiLetter(c)) ==> MarkerKind(m) == BulletMark
  {
  }

  /** `_match_list_pattern`: the first list pattern matching the stripped text,
      its kind and its stripped marker. */
  function MatchListPattern(text: string): (r: Option<ListMatch>)
    ensures r.None? <==> forall k :: 0 <= k < 5 ==> ListPatternMatch(Strip(text), k).None?
    ensures r.Some? ==> exists j :: 0 <= j < 5 && ListPatternMatch(Strip(text), j).Some?
                          && (forall i :: 0 <= i < j ==> ListPatternMatch(Strip(text), i).None?)
                          && r.value.kind == PatternKind(j)
                          && r.value.marker == Strip(ListPatternMatch(Strip(text), j).value)
  {
    var t := Strip(text);
    match FirstListMatch(t, 0)
    case None => None
    case Some(j) =>
      var m := ListPatternMatch(t, j).value;
      MarkerKindOfPattern(m, j);
      Some(ListMatch(MarkerKind(m), Strip(m)))
  }

  /** `_determine_list_level`: 1, 2, 3 or 4 for a left edge below 50, 100, 150
      or beyond. */
  function DetermineListLevel(b: TextBlock): (l: int)
    ensures 1 <= l <= 4
    ensures l == 1 <==> b.bbox.x0 < 50.0
    ensures l == 2 <==> 50.0 <= b.bbox.x0 < 100.0
    ensures l == 3 <==> 100.0 <= b.bbox.x0 < 150.0
    ensures l == 4 <==> b.bbox.x0 >= 150.0
  {
    var indent := b.bbox.x0;
    if indent < 50.0 then 1 else if indent < 100.0 then 2 else if indent < 150.0 then 3 else 4
  }

  /** Deeper indentation never gives a shallower level. */
  lemma ListLevelMonotone(a: TextBlock, b: TextBlock)
    requires a.bbox.x0 <= b.bbox.x0
    ensures DetermineListLevel(a) <= DetermineListLevel(b)
  {
  }

  predicate IsListBlock(b: TextBlock)
  {
    MatchListPattern(b.text).Some?
  }

  /** The item `analyze_lists` builds for a list block; only list blocks are
      ever turned into items, so the kind of any other block is immaterial. */
  function ItemOf(b: TextBlock): (item: ListItem)
    ensures item.text == b.text && item.page == b.page && item.bbox == b.bbox
    ensures item.level == DetermineListLevel(b)
    ensures IsListBlock(b) ==> item.bulletType == MatchListPattern(b.text).value.kind
  {
    var kind := match MatchListPattern(b.text) case Some(m) => m.kind case None => BulletMark;
    ListItem(b.text, DetermineListLevel(b), kind, b.page, b.bbox)
  }

  /** `_create_list`: the union box, the first item's page, and "ordered"
      exactly when the first item is numbered. */
  function CreateList(items: seq<ListItem>): (l: DocList)
    requires items != []
    ensures l.items == items && l.page == items[0].page
    ensures forall i :: 0 <= i < |items| ==> l.bbox.Contains(items[i].bbox)
    ensures exists i :: 0 <= i < |items| && items[i].bbox.x0 == l.bbox.x0
    ensures exists i :: 0 <= i < |items| && items[i].bbox.y0 == l.bbox.y0
    ensures exists i :: 0 <= i < |items| && items[i].bbox.x1 == l.bbox.x1
    ensures exists i :: 0 <= i < |items| && items[i].bbox.y1 == l.bbox.y1
    ensures l.listType == Ordered <==> items[0].bulletType == NumberMark
  {
    DocList(items, items[0].page, UnionAll(Boxes(items, ItemBox)),
            if items[0].bulletType == NumberMark then Ordered else Unordered)
  }

  /** One list per run of blocks, its items built by `toItem`. */
  function ListsOf(runs: seq<seq<TextBlock>>, toItem: TextBlock -> ListItem): (r: seq<DocList>)
    requires forall j :: 0 <= j < |runs| ==> runs[j] != []
    ensures |r| == |runs| && forall j :: 0 <= j < |runs| ==> r[j] == CreateList(Map(runs[j], toItem))
  {
    seq(|runs|, j requires 0 <= j < |runs| => CreateList(Map(runs[j], toItem)))
  }

  lemma ListsOfAppend(runs: seq<seq<TextBlock>>, run: seq<TextBlock>, toItem: TextBlock -> ListItem)
    requires forall j :: 0 <= j < |runs| ==> runs[j] != []
    requires run != []
    ensures ListsOf(runs + [run], toItem) == ListsOf(runs, toItem) + [CreateList(Map(run, toItem))]
  {
    var all := runs + [run];
    assert forall j :: 0 <= j < |runs| ==> all[j] == runs[j];
    assert all[|runs|] == run;
  }

  /** A list is ordered exactly when the first pattern its first block
      matches is a numbered one (`\d+[.、]` or `[(（]\d+[)）]`); bullets,
      letters and Chinese numerals give an unordered list. */
  lemma ListOrderedByFirstPattern(run: seq<TextBlock>)
    requires run != [] && IsListBlock(run[0])
    ensures FirstListMatch(Strip(run[0].text), 0).Some?
    ensures CreateList(Map(run, ItemOf)).listType == Ordered <==>
              FirstListMatch(Strip(run[0].text), 0).value == 1 || FirstListMatch(Strip(run[0].text), 0).value == 4
  {
    var items := Map(run, ItemOf);
    assert items[0] == ItemOf(run[0]);
    ItemNumbered(run[0]);
  }

  /** An item is numbered exactly when its block's first matching pattern is
      a numbered one. */
  lemma ItemNumbered(b: TextBlock)
    requires IsListBlock(b)
    ensures FirstListMatch(Strip(b.text), 0).Some?
    ensures ItemOf(b).bulletType == NumberMark <==>
              FirstListMatch(Strip(b.text), 0).value == 1 || FirstListMatch(Strip(b.text), 0).value == 4
  {
    var j := FirstKind(b.text);
  }

  /** The kind `_match_list_pattern` reports is that of the first pattern. */
  lemma FirstKind(text: string) returns (j: nat)
    requires MatchListPattern(text).Some?
    ensures FirstListMatch(Strip(text), 0) == Some(j)
    ensures MatchListPattern(text).value.kind == PatternKind(j)
  {
    var t := Strip(text);
    assert FirstListMatch(t, 0).Some?;
    j := FirstListMatch(t, 0).value;
    MarkerKindOfPattern(ListPatternMatch(t, j).value, j);
  }


  /** The block after `analyze_lists` has tagged it. */
  function TagList(b: TextBlock): TextBlock
  {
    if IsListBlock(b) then b.(elementType := ListElem) else b
  }

  /** `analyze_lists`: one list per maximal run of consecutive marker-prefixed
      blocks, in input order; list blocks are tagged LIST. */
  method AnalyzeLists(blocks: seq<TextBlock>) returns (lists: seq<DocList>, tagged: seq<TextBlock>)
    ensures forall j :: 0 <= j < |Runs([], blocks, IsListBlock)| ==> Runs([], blocks, IsListBlock)[j] != []
    ensures forall j, i :: 0 <= j < |Runs([], blocks, IsListBlock)| && 0 <= i < |Runs([], blocks, IsListBlock)[j]| ==>
              IsListBlock(Runs([], blocks, IsListBlock)[j][i])
    ensures lists == ListsOf(Runs([], blocks, IsListBlock), ItemOf)
    ensures |tagged| == |blocks| && forall i :: 0 <= i < |blocks| ==> tagged[i] == TagList(blocks[i])
  {
    RunsWellFormed([], blocks, IsListBlock);
    lists, tagged := CollectLists(blocks, IsListBlock, ItemOf);
  }

  /** The loop state of `analyze_lists`: the lists closed so far are those of
      the finished runs `done`, and the open list holds the items of the open
      run `open`. */
  predicate ListsState(lists: seq<DocList>, current: seq<ListItem>, done: seq<seq<TextBlock>>,
                       open: seq<TextBlock>, toItem: TextBlock -> ListItem)
  {
    && (forall j :: 0 <= j < |done| ==> done[j] != [])
    && lists == ListsOf(done, toItem)
    && current == Map(open, toItem)
  }

  /** One iteration of `analyze_lists`' loop, on the lists: a list block joins
      the open list; any other block closes the open list, if there is one. */
  method AddToLists(lists: seq<DocList>, current: seq<ListItem>, ghost done: seq<seq<TextBlock>>,
                    ghost open: seq<TextBlock>, b: TextBlock, ghost rest: seq<TextBlock>,
                    isList: TextBlock -> bool, toItem: TextBlock -> ListItem)
    returns (lists': seq<DocList>, current': seq<ListItem>, ghost done': seq<seq<TextBlock>>, ghost open': seq<TextBlock>)
    requires ListsState(lists, current, done, open, toItem)
    ensures ListsState(lists', current', done', open', toItem)
    ensures done' + Runs(open', rest, isList) == done + Runs(open, [b] + rest, isList)
    ensures isList(b) ==> lists' == lists && current' == current + [toItem(b)]
    ensures !isList(b) && current != [] ==> lists' == lists + [CreateList(current)] && current' == []
    ensures !isList(b) && current == [] ==> lists' == lists && current' == []
  {
    assert ([b] + rest)[1..] == rest;
    if isList(b) {
      MapAppend(open, [b], toItem);
      lists', current', done', open' := lists, current + [toItem(b)], done, open + [b];
    } else if current != [] {
      ListsOfAppend(done, open, toItem);
      lists', current', done', open' := lists + [CreateList(current)], [], done + [open], [];
    } else {
      lists', current', done', open' := lists, [], done, [];
    }
  }

  /** The loop of `analyze_lists` for a given list test and item builder: the
      open list grows while blocks pass the test and is closed by the first
      block that does not, or by the end of the input. */
  method CollectLists(blocks: seq<TextBlock>, isList: TextBlock -> bool, toItem: TextBlock -> ListItem)
    returns (lists: seq<DocList>, tagged: seq<TextBlock>)
    ensures forall j :: 0 <= j < |Runs([], blocks, isList)| ==> Runs([], blocks, isList)[j] != []
    ensures lists == ListsOf(Runs([], blocks, isList), toItem)
    ensures |tagged| == |blocks|
    ensures forall i :: 0 <= i < |blocks| ==>
              tagged[i] == if isList(blocks[i]) then blocks[i].(elementType := ListElem) else blocks[i]
  {
    RunsWellFormed([], blocks, isList);
    lists := [];
    tagged := [];
    var current: seq<ListItem> := [];
    ghost var done: seq<seq<TextBlock>> := [];
    ghost var open: seq<TextBlock> := [];
    for i := 0 to |blocks|
      invariant ListsState(lists, current, done, open, toItem)
      invariant done + Runs(open, blocks[i..], isList) == Runs([], blocks, isList)
      invariant |tagged| == i
      invariant forall k :: 0 <= k < i ==>
                  tagged[k] == if isList(blocks[k]) then blocks[k].(elementType := ListElem) else blocks[k]
    {
      var b := blocks[i];
      assert blocks[i..] == [b] + blocks[i + 1..];
      lists, current, done, open := AddToLists(lists, current, done, open, b, blocks[i + 1..], isList, toItem);
      tagged := tagged + [if isList(b) then b.(elementType := ListElem) else b];
    }
    if current != [] {
      ListsOfAppend(done, open, toItem);
      lists := lists + [CreateList(current)];
      done := done + [open];
    }
  }

  // -------------------------------------------------------------- document

  /** The lists `analyze_lists` builds: one per maximal run of list blocks. */
  function ListsFor(blocks: seq<TextBlock>): seq<DocList>
  {
    RunsWellFormed([], blocks, IsListBlock);
    ListsOf(Runs([], blocks, IsListBlock), ItemOf)
  }

  /** The blocks after `analyze_headings` has tagged them. */
  function HeadingTagged(blocks: seq<TextBlock>, avg: real): (r: seq<TextBlock>)
    ensures |r| == |blocks| && forall i :: 0 <= i < |blocks| ==> r[i] == TagHeading(blocks[i], avg)
  {
    seq(|blocks|, i requires 0 <= i < |blocks| => TagHeading(blocks[i], avg))
  }

  /** `analyze_document`: headings first, then paragraphs over the blocks as
      the heading pass left them, then lists; the document's blocks carry both
      passes' tags and nothing but its structure lists changes. */
  method AnalyzeDocument(d: ParsedDocument) returns (r: ParsedDocument)
    ensures r.headings == AdjustedLevels(Map(Filter(d.textBlocks, HeadingTest(AverageFontSize(d.textBlocks))),
                                             HeadingMaker(AverageFontSize(d.textBlocks))))
    ensures Flatten(ParagraphBlocks(r.paragraphs))
            == SortByKey(Filter(HeadingTagged(d.textBlocks, AverageFontSize(d.textBlocks)), NotHeading), ParagraphKey)
    ensures forall j :: 0 <= j < |r.paragraphs| ==> IsChain(r.paragraphs[j].textBlocks, Continues)
    ensures ChainsBreakApart(ParagraphBlocks(r.paragraphs), Continues)
    ensures r.lists == ListsFor(HeadingTagged(d.textBlocks, AverageFontSize(d.textBlocks)))
    ensures |r.textBlocks| == |d.textBlocks|
    ensures forall i :: 0 <= i < |d.textBlocks| ==>
              r.textBlocks[i] == TagList(TagHeading(d.textBlocks[i], AverageFontSize(d.textBlocks)))
    ensures r.metadata == d.metadata && r.pages == d.pages && r.tables == d.tables && r.images == d.images
  {
    var headings, headed := AnalyzeHeadings(d.textBlocks);
    assert headed == HeadingTagged(d.textBlocks, AverageFontSize(d.textBlocks));
    var paragraphs := AnalyzeParagraphs(headed);
    var lists, listed := AnalyzeLists(headed);
    r := d.(textBlocks := listed, headings := headings, paragraphs := paragraphs, lists := lists);
  }

  /** The paragraphs `analyze_document` builds hold exactly the input blocks
      that neither pass the heading test nor arrive tagged HEADING: no block
      is both a heading and part of a paragraph, and no other block is lost. */
  lemma ParagraphsAreNonHeadings(blocks: seq<TextBlock>, avg: real, ps: seq<Paragraph>, x: TextBlock)
    requires Flatten(ParagraphBlocks(ps)) == SortByKey(Filter(HeadingTagged(blocks, avg), NotHeading), ParagraphKey)
    ensures x in Flatten(ParagraphBlocks(ps)) <==> x in blocks && !IsHeading(x, avg) && NotHeading(x)
  {
    var kept := Filter(HeadingTagged(blocks, avg), NotHeading);
    SameElements(Flatten(ParagraphBlocks(ps)), kept, x);
    KeptBlocks(blocks, avg, x);
  }

  /** Two sequences with the same elements, counted, hold the same elements. */
  lemma SameElements<T>(a: seq<T>, b: seq<T>, x: T)
    requires multiset(a) == multiset(b)
    ensures x in a <==> x in b
  {
    assert x in a <==> x in multiset(a);
    assert x in b <==> x in multiset(b);
  }

  /** The blocks left untagged by the heading pass are the input blocks
      that neither pass the heading test nor arrive tagged HEADING. */
  lemma KeptBlocks(blocks: seq<TextBlock>, avg: real, x: TextBlock)
    ensures x in Filter(HeadingTagged(blocks, avg), NotHeading) <==> x in blocks && !IsHeading(x, avg) && NotHeading(x)
  {
    var tagged := HeadingTagged(blocks, avg);
    FilterMembers(tagged, NotHeading);
    if x in Filter(tagged, NotHeading) {
      var i :| 0 <= i < |tagged| && tagged[i] == x;
      assert TagHeading(blocks[i], avg) == x;
    }
    if x in blocks && !IsHeading(x, avg) && NotHeading(x) {
      var i :| 0 <= i < |blocks| && blocks[i] == x;
      assert tagged[i] == x;
    }
  }
}
