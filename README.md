# PDF to Typst reconstruction core, in Dafny

This project models the in-memory core of a PDF→Typst converter and proves
properties of the model. The converter takes positioned text blocks, tables and
images extracted from a PDF. It classifies the text into headings, paragraphs and
lists, and groups the elements of each page into layout regions. It then emits
Typst markup that reproduces the page layout.

The modules follow the repository's files:

- `Models` (`src/core/models.py`): boxes, fonts, text blocks, table cells and
  tables, headings, paragraphs, lists, pages and the parsed document. The
  normalisation done by `__post_init__` is modelled by smart constructors, and
  `to_2d_array` fills a grid in a loop.
- `PdfParser` (`src/core/pdf_parser.py`): the pure helpers only. These group
  pdfplumber characters into lines and compute their box and font. They also
  decode PyMuPDF style flags and run the table-header heuristic.
- `ContentAnalyzer` (`src/core/content_analyzer.py`):
  - heading detection and level re-ranking by distinct font size;
  - grouping of the other blocks into paragraphs at page, gap and indent breaks;
  - grouping of runs of marker-prefixed blocks into lists;
  - `analyze_document`, which chains the three analyses.
- `Patterns`: the concrete regular expressions of the analyzer and the
  generator, written as prefix scanners. Each comes with a lemma that ties the
  scanner to the pattern's backtracking reading.
- `LayoutAnalyzer` (`src/core/layout_analyzer.py`):
  - the single "absolute" region sorted by `(-y0, x0)`;
  - position clustering, column bands, header/footer splitting;
  - the text-wrap test, margins, page-size estimation and page-relative
    positions.
- `TypstGenerator`, `TypstPages` and `TypstText` (`src/core/typst_generator.py`):
  - the configuration and the page strategy;
  - the clamped percentage geometry and the spatial grouping helpers;
  - the element renderers in their plain, positioned and absolute forms;
  - the absolute, multi-column, single-column and simple page layouts, and the
    main content;
  - the text transformations: escaping, mixed-content repair, heading and
    list-item cleaning, the heading sanity check, font-family mapping and the
    image-path lookup.
- `TypstHelper` (`http_api/typst_helper.py`): the page-by-page emitter driven by
  session dictionaries, the image-path fixer, the caption extraction and the
  "enhanced" entry point.
- `FixTypst` (`fix_typst_generation.py`): the stand-alone two-column page
  generator. It covers text cleaning, the title and mixed-content heuristics,
  the header/footer/left/right split, and the line-by-line page assembly.
- `Text` and `Seqs`: Python's string and list operations the core relies on.
  These are `strip`, `lower`/`upper`, `in`, `replace`, `join`, `split`, stable
  `sorted` by a key tuple, and comprehensions with a condition.

In these places the model keeps behaviour of the source that a reader may not expect:

- `analyze_paragraphs` sorts the non-heading blocks ascending by
  `(page, y0, x0)`.
- `_escape_typst_text` applies its table one entry after another with the
  backslash last, so every earlier escape gets its backslash doubled.
  `TypstText.EscapeAsWrittenLosesText` shows the effect. The intended escaping
  and its round trip are proved beside it.
- `_separate_mixed_content` cuts long capital runs before its repair table
  runs, so the "ABERRATIONSSURVIVORS" repair never applies
  (`TypstText.AberrationsNotRepaired`).
- Absolute rendering re-sorts the elements by ascending `y0`, the opposite of
  the layout analyzer's `-y0` key.

Loops in the source are methods with loop invariants. Each method is proved
against a function that specifies it. The lemmas are stated about those
functions.

## Model

| member | source | states |
|---|---|---|
| Models.BoundingBox.Width | src/core/models.py:47-50 | the width added to the left edge gives the right edge |
| Models.BoundingBox.Height | src/core/models.py:52-55 | the height added to the bottom edge gives the top edge |
| Models.BoundingBox.Center | src/core/models.py:57-60 | the centre is equally far from both vertical edges and from both horizontal edges |
| Models.UnionAll | src/core/typst_generator.py:564-574 | the box of a non-empty list contains every box, and each of its four bounds is attained by some box |
| Models.MakeFontInfo | src/core/models.py:71-74 | after construction the style list is never empty: an empty list becomes `[NORMAL]`, any other is kept |
| Models.MakeTextBlock | src/core/models.py:87-89 | after construction the text is the stripped input text, with no white space at either end |
| Models.MakeTableCell | src/core/models.py:112-114 | after construction the cell text is stripped; span defaults are 1 and there is no font |
| Models.GetCell | src/core/models.py:129-134 | returns the first cell in list order at (row, col), and none exactly when no cell is there |
| Models.To2DArray | src/core/models.py:136-142 | a max(rows,0) x max(cols,0) grid whose every entry is the text of the LAST in-range cell at that place, else "" |
| Models.GridAgreesWithGetCell | src/core/models.py:129-142 | when no two cells share a position, the grid entry is the text of the cell `get_cell` returns, else "" |
| Models.MakeHeading | src/core/models.py:173-175 | after construction the level lies in 1..6: kept when inside, 1 below, 6 above |
| Models.ParagraphTextAppend | src/core/models.py:189-192 | appending a block to a paragraph appends a space and the block's text to its text |
| Models.PageInfo.AspectRatio | src/core/models.py:222-225 | width over height for a positive height, 1.0 otherwise |
| Models.GetElementsByPage | src/core/models.py:260-269 | each of the six lists is the comprehension keeping the document's elements of that kind whose page is `p`, in document order; so it holds exactly those elements, each as often as in the document |
| Patterns.GreedyScanIsMatch | src/core/content_analyzer.py:43-50 | for `^P+Q` with no Q character in P, the greedy run-then-closer scan accepts exactly the strings the pattern matches |
| Patterns.HeadingPatternsAreMatches | src/core/content_analyzer.py:43-51 | the seven heading scanners together accept exactly what the seven patterns match at the start of the text |
| Patterns.OrdinalHeadingIsMatch | src/core/content_analyzer.py:44-45 | the `第…章` / `第…节` scanner agrees with its pattern |
| Patterns.WordHeadingIsMatch | src/core/content_analyzer.py:49-50 | the `Chapter\s+\d+` / `Section\s+\d+` scanner agrees with its pattern |
| Patterns.DotGroupsLength | src/core/content_analyzer.py:328 | the length of the longest `(?:\.\d+)*` match: dot-digit groups that no further group extends |
| Patterns.DottedNumberLength | src/core/content_analyzer.py:328-330 | positive exactly when the text starts with a digit; the match is a dotted number that neither a digit nor a dot-digit group extends |
| Patterns.DottedNumberMaximal | src/core/content_analyzer.py:328-330 | on a text that starts with a dotted number followed by a character other than a digit or dot, the match is exactly that number |
| Patterns.OrdinalMarkLength | src/core/content_analyzer.py:333-335 | positive exactly when an ordinal heading pattern matches; the match is `第`, ordinal characters, then `章` or `节` |
| Patterns.ListBodyLength | src/core/content_analyzer.py:58-64 | positive exactly when the marker body of list pattern k (bullet, `\d+[.、]`, `[a-zA-Z][.、)]`, Chinese numerals then `[.、)]`, bracketed number) matches at the start as a backtracking matcher reads it; the first n characters are then exactly one such body |
| Patterns.ListPatternMatch | src/core/content_analyzer.py:58-64 | a match exactly when the pattern `^\s*BODY\s*` matches under the backtracking reading; the match is a prefix made of white space, one marker body and white space, and takes all the white space after the body |
| Patterns.GreedyLead | src/core/content_analyzer.py:58-64 | taking all the leading white space decides the pattern: no marker body starts with white space, so the leading `\s*` never has to give any back |
| Patterns.StripListMarker | src/core/typst_generator.py:1212-1221 | on a match the text is the matched marker followed by the result, which does not start with white space; without a match the text is kept |
| PdfParser.GroupCharsIntoLines | src/core/pdf_parser.py:369-397 | no characters give no lines; the lines, flattened, are the characters in `(top, x0)` order; within a line consecutive tops differ by at most 2 and between lines by more |
| PdfParser.SplitLines | src/core/pdf_parser.py:377-397 | the loop cuts the sorted characters into lines exactly where consecutive tops differ by more than 2, losing and reordering nothing |
| PdfParser.CalculateBboxFromChars | src/core/pdf_parser.py:399-409 | (0,0,0,0) for no characters; otherwise a box containing every character's box, each bound attained by a character |
| PdfParser.ExtractFontInfoFromChars | src/core/pdf_parser.py:411-434 | the default font for no characters; otherwise the first character's name and size (defaults "default" and 12), black, NORMAL first, BOLD and ITALIC exactly when the lower-cased name mentions them |
| PdfParser.StyleList | src/core/pdf_parser.py:423-427 | NORMAL first and only once; BOLD present exactly when asked, ITALIC likewise, in that order |
| PdfParser.GetTextStylesFromFlags | src/core/pdf_parser.py:436-446 | NORMAL first; BOLD exactly when bit 16 is set and ITALIC exactly when bit 2 is set, on Python's unbounded integers |
| PdfParser.DetectTableHeader | src/core/pdf_parser.py:448-465 | true exactly when there are two rows or more, the first row is non-empty and one of its non-empty cells contains a header word once lower-cased |
| Seqs.SortByKey | src/core/content_analyzer.py:197-200 | `sorted` by a key tuple returns the same elements, as often as given, in key order, and stably: for every key value the elements with that key keep their input order |
| Seqs.InsertSorted | src/core/content_analyzer.py:197-200 | inserting into a key-ordered sequence keeps it in key order |
| Seqs.InsertStable | src/core/content_analyzer.py:197-200 | inserting an element puts it before every element with the same key, so the elements of each key keep their order |
| Seqs.SortSortedIsIdentity | src/core/content_analyzer.py:197-200 | sorting a sequence already in key order changes nothing |
| Seqs.SortTwice | src/core/content_analyzer.py:197-200 | sorting twice is sorting once |
| Seqs.FilterMembers | src/core/content_analyzer.py:191-194 | a list comprehension with a condition keeps exactly the elements that pass |
| Seqs.FilterComplement | src/core/content_analyzer.py:191-194 | filtering by a condition and by its negation splits the elements between the two |
| Seqs.SplitChains | src/core/content_analyzer.py:203-234 | cutting a sequence after every element not linked to the next gives groups that concatenate back to it, each a chain, neighbouring groups not linked |
| Seqs.RunsWellFormed | src/core/content_analyzer.py:249-278 | every run of list blocks the loop collects is non-empty and made only of list blocks |
| Seqs.RunsPartition | src/core/content_analyzer.py:249-278 | the runs, concatenated, are exactly the list blocks in input order |
| Seqs.RunsCount | src/core/content_analyzer.py:249-278 | there is one run per maximal stretch of consecutive list blocks |
| Text.Strip | src/core/content_analyzer.py:407 | Python's `strip` keeps the longest infix with no white space at either end, and removes only white space |
| Text.StripIdempotent | src/core/content_analyzer.py:407 | stripping twice is stripping once |
| Text.StripEmptyIffBlank | src/core/content_analyzer.py:407 | stripping gives "" exactly for blank text |
| Text.CollapseSpacesSingleSpaced | fix_typst_generation.py:18 | collapsing white-space runs leaves no two adjacent spaces and no other white space |
| ContentAnalyzer.AverageFontSize | src/core/content_analyzer.py:282-288 | the mean is positive, and is 12 when no block has a positive size |
| ContentAnalyzer.AverageFontSizeWithin | src/core/content_analyzer.py:282-288 | when some block has a positive size, the mean lies between the smallest and the largest positive size |
| ContentAnalyzer.DetermineHeadingLevel | src/core/content_analyzer.py:311-323 | the level is 1 when the size exceeds the mean by more than 8, 2 for a difference in (4, 8], 3 for (2, 4] and 4 otherwise |
| ContentAnalyzer.HeadingLevelMonotone | src/core/content_analyzer.py:311-323 | a larger font never gets a deeper level |
| ContentAnalyzer.SizeHeadingLevel | src/core/content_analyzer.py:290-323 | a block larger than the mean by more than 2 is a heading and its provisional level is at most 3 |
| ContentAnalyzer.PlainBlockHeadingBySize | src/core/content_analyzer.py:290-362 | a block that is not bold, matches no heading pattern, and is long or starts at x <= 100 is a heading exactly when its size exceeds the mean by more than 2 |
| ContentAnalyzer.HeadingByStyleOrPattern | src/core/content_analyzer.py:290-309 | boldness, a number-and-full-stop heading pattern, or a text shorter than 50 starting right of x = 100 (the `_is_centered` stand-in) each make a heading; a non-heading is no larger than the mean plus 2, not bold and matches no pattern |
| ContentAnalyzer.NumberingOf | src/core/content_analyzer.py:325-337 | a text starting with a digit is numbered by its longest leading dotted number, which neither a digit nor a dot-digit group extends; otherwise a numbering exists exactly when a `第…章`/`第…节` pattern matches, and it is `第`, ordinal characters only, then `章` or `节`, so the first such mark |
| ContentAnalyzer.NumberedHeadingNumbering | src/core/content_analyzer.py:325-331 | a heading reading as a dotted number, a space and a title is numbered by exactly that number |
| ContentAnalyzer.OrdinalHeadingNumbering | src/core/content_analyzer.py:325-337 | a heading starting with a mark `第…章` or `第…节` is numbered by exactly that mark, whatever follows ("第一章第二节" gives "第一章") |
| ContentAnalyzer.LevelForSize | src/core/content_analyzer.py:350-354 | the adjusted level is in 1..6 |
| ContentAnalyzer.AdjustedLevels | src/core/content_analyzer.py:339-356 | each heading keeps everything but its level, which becomes one more than the number of distinct larger sizes, capped at 6 |
| ContentAnalyzer.LargestSizeIsLevelOne | src/core/content_analyzer.py:339-356 | a heading of the largest size gets level 1 |
| ContentAnalyzer.LargerSizeShallowerLevel | src/core/content_analyzer.py:339-356 | a strictly larger heading gets a level no deeper, and strictly shallower unless the smaller one sits at the cap 6 |
| ContentAnalyzer.RankIsIndex | src/core/content_analyzer.py:350-354 | in the sizes sorted from largest without repeats, the size at index k has exactly k distinct larger sizes, so `enumerate(sorted_sizes, 1)` gives the rank |
| ContentAnalyzer.AdjustHeadingLevels | src/core/content_analyzer.py:339-356 | the grouping by size, the descending sort and the re-levelling loop compute the adjusted levels |
| ContentAnalyzer.SortedSizes | src/core/content_analyzer.py:344-350 | the sorted sizes are without repeats, sorted from largest, and are exactly the heading sizes |
| ContentAnalyzer.DistinctSizes | src/core/content_analyzer.py:344-348 | the keys of the size groups are without repeats and are exactly the heading sizes |
| ContentAnalyzer.Relevel | src/core/content_analyzer.py:352-354 | exactly the headings of the given size get the new level; the others are unchanged |
| ContentAnalyzer.AnalyzeHeadings | src/core/content_analyzer.py:135-173 | the headings are the heading blocks, in order, made into headings and then re-levelled; every block is tagged a heading exactly when it is one |
| ContentAnalyzer.CollectHeadings | src/core/content_analyzer.py:149-168 | the loop collects the selected blocks, in order, as headings and tags exactly those blocks |
| ContentAnalyzer.DetermineAlignment | src/core/content_analyzer.py:391-402 | left or justify; for non-empty blocks left exactly when every block starts within 5 points of the first |
| ContentAnalyzer.CreateParagraph | src/core/content_analyzer.py:364-389 | the paragraph holds the blocks, takes page and indent from the first block and the alignment of the blocks; its box is the union of the blocks' boxes: it contains each of them and each of its four bounds is attained by a block |
| ContentAnalyzer.AnalyzeParagraphs | src/core/content_analyzer.py:175-236 | the paragraphs, read in order, are exactly the non-heading blocks sorted by (page, top, left); each paragraph is a chain of continuing blocks, consecutive paragraphs do not continue one another, and each is built by CreateParagraph |
| ContentAnalyzer.EndsParagraph | src/core/content_analyzer.py:208-228 | a block ends its paragraph exactly when it is the last block or the next block does not continue it |
| ContentAnalyzer.FirstListMatch | src/core/content_analyzer.py:406-408 | the index of the first pattern from k on that matches, in pattern order; none exactly when none of them matches |
| ContentAnalyzer.MatchListPattern | src/core/content_analyzer.py:404-426 | none exactly when no list pattern matches the stripped text; otherwise, for the first pattern j that matches, the kind is the kind of pattern j and the marker is its match stripped |
| ContentAnalyzer.MarkerKindOfPattern | src/core/content_analyzer.py:411-419 | the kind read off a match depends only on its pattern: bullets and Chinese numerals give a bullet, Arabic and bracketed numbers a number, letters a letter |
| ContentAnalyzer.FirstKind | src/core/content_analyzer.py:404-426 | the kind `_match_list_pattern` reports is that of the first matching pattern in list order |
| ContentAnalyzer.DetermineListLevel | src/core/content_analyzer.py:428-440 | the level is 1 for a left edge below 50, 2 in [50, 100), 3 in [100, 150) and 4 beyond |
| ContentAnalyzer.ListLevelMonotone | src/core/content_analyzer.py:428-440 | a block further right never gets a shallower list level |
| ContentAnalyzer.ItemOf | src/core/content_analyzer.py:255-262 | an item keeps the block's text, page and box, takes the block's list level, and for a list block the kind of its marker |
| ContentAnalyzer.CreateList | src/core/content_analyzer.py:442-464 | the list holds the items and takes the first item's page; its box is the union of the items' boxes, containing each and attaining each bound; it is ordered exactly when the first item is numbered |
| ContentAnalyzer.ItemNumbered | src/core/content_analyzer.py:411-419 | an item is numbered exactly when the first pattern its block matches is `\d+[.、]` or the bracketed number |
| ContentAnalyzer.ListOrderedByFirstPattern | src/core/content_analyzer.py:411-464 | a list is ordered exactly when its first block's first matching pattern is a numbered one; bullet, letter and Chinese-numeral lists are unordered |
| ContentAnalyzer.ListsOf | src/core/content_analyzer.py:238-280 | one list per run, each built by CreateList from the run's items |
| ContentAnalyzer.ListsOfAppend | src/core/content_analyzer.py:264-273 | closing one more run appends exactly its list |
| ContentAnalyzer.AnalyzeLists | src/core/content_analyzer.py:238-280 | one list per maximal run of consecutive list blocks, in order, each run non-empty and made only of list blocks; every block is tagged a list item exactly when it is one |
| ContentAnalyzer.AddToLists | src/core/content_analyzer.py:251-273 | a list block extends the open list; any other block closes a non-empty open list; the runs seen so far are preserved |
| ContentAnalyzer.CollectLists | src/core/content_analyzer.py:238-280 | the loop and the final flush build one list per maximal run of selected blocks and tag exactly the selected blocks |
| ContentAnalyzer.HeadingTagged | src/core/content_analyzer.py:135-173 | every block is tagged a heading exactly when it is one, in place |
| ContentAnalyzer.AnalyzeDocument | src/core/content_analyzer.py:104-133 | headings, paragraphs and lists are set as the three analyses compute them, with paragraphs and lists seeing the heading tags; every block carries its heading and list tag; metadata, pages, tables and images are unchanged |
| ContentAnalyzer.ParagraphsAreNonHeadings | src/core/content_analyzer.py:104-133 | a block lies in some paragraph of the analyzed document exactly when it is one of the document's blocks and is neither a heading nor tagged as one |
| ContentAnalyzer.KeptBlocks | src/core/content_analyzer.py:135-194 | after the heading pass, the blocks not tagged HEADING are exactly the input blocks that neither pass the heading test nor arrived tagged HEADING |
| LayoutAnalyzer.CollectAllElementsOrder | src/core/layout_analyzer.py:130-150 | the collected elements are the headings, paragraphs, tables, images and lists of the page, in that order and nothing else |
| LayoutAnalyzer.EstimatedSizeCovers | src/core/layout_analyzer.py:181-201 | the estimated size leaves at least 50 beyond every element's right and top edge |
| LayoutAnalyzer.EstimatePageSize | src/core/layout_analyzer.py:181-201 | the loop's running maxima give the largest right and top edges (from 0) plus 50, or A4 for an empty page |
| LayoutAnalyzer.EdgeMaxima | src/core/layout_analyzer.py:190-198 | the loop's maxima equal the largest right and top edges, starting from 0 |
| LayoutAnalyzer.FirstPageInfo | src/core/layout_analyzer.py:152-161 | finds a page record exactly when one has the page number, and returns one of them |
| LayoutAnalyzer.GetRealPageSize | src/core/layout_analyzer.py:152-161 | the size of the first page record with the number, else the size estimated from the page's elements |
| LayoutAnalyzer.SortKeyOrder | src/core/layout_analyzer.py:362-367 | in a sequence sorted by `(-y0, x0)` the element with the higher y0 comes first, ties broken by smaller x0 |
| LayoutAnalyzer.CreateAbsoluteLayout | src/core/layout_analyzer.py:163-179 | no regions for no elements; otherwise one absolute region over the whole page holding a sorted permutation of the elements |
| LayoutAnalyzer.AnalyzeElementRelationships | src/core/layout_analyzer.py:353-360 | every region keeps everything but its elements, which are sorted by the element key |
| LayoutAnalyzer.AbsoluteLayoutIsSorted | src/core/layout_analyzer.py:163-179 | re-sorting the absolute region changes nothing |
| LayoutAnalyzer.AbsoluteLayoutResorted | src/core/layout_analyzer.py:111-114 | the relationship pass leaves the absolute layout exactly as it was |
| LayoutAnalyzer.AnalyzePageLayout | src/core/layout_analyzer.py:88-128 | one column, no header or footer; regions empty exactly when the page has no elements, else one sorted absolute region holding a permutation of them; margins computed from the same elements |
| LayoutAnalyzer.LayoutOfElements | src/core/layout_analyzer.py:110-126 | the layout is built from the given size, the absolute regions and the margins of the elements |
| LayoutAnalyzer.ClustersCover | src/core/layout_analyzer.py:257-276 | every position is within the tolerance of some cluster |
| LayoutAnalyzer.ClustersFromInput | src/core/layout_analyzer.py:257-276 | every cluster is one of the positions, and the first position opens the first cluster |
| LayoutAnalyzer.ClustersSeparated | src/core/layout_analyzer.py:257-276 | any two clusters are further apart than the tolerance |
| LayoutAnalyzer.ClusterResultSorted | src/core/layout_analyzer.py:276 | the returned clusters are sorted and are exactly the clusters found |
| LayoutAnalyzer.ClusterResultFromInput | src/core/layout_analyzer.py:257-276 | every returned value is an input position, and the first position is among them |
| LayoutAnalyzer.ClusterResultCovers | src/core/layout_analyzer.py:257-276 | every position is within the tolerance of a returned cluster |
| LayoutAnalyzer.ClusterResultSeparated | src/core/layout_analyzer.py:257-276 | distinct returned clusters are further apart than the tolerance |
| LayoutAnalyzer.ClusterPositions | src/core/layout_analyzer.py:257-276 | the nested loops compute the first-fit clusters, sorted |
| LayoutAnalyzer.FindNearCluster | src/core/layout_analyzer.py:267-271 | the inner loop finds a cluster exactly when some cluster is within the tolerance |
| LayoutAnalyzer.ClusterExample | src/core/layout_analyzer.py:257-276 | positions 58, 60, 62, 318, 320 give the clusters 58 and 318 |
| LayoutAnalyzer.ClusterJoin | src/core/layout_analyzer.py:267-274 | a position near an existing cluster leaves the clusters unchanged |
| LayoutAnalyzer.ClusterOpen | src/core/layout_analyzer.py:273-274 | a position far from every cluster opens a new one at the end |
| LayoutAnalyzer.BandRegionsShape | src/core/layout_analyzer.py:230-255 | the column regions are non-empty bands in increasing column order, each the band of its column index |
| LayoutAnalyzer.BandRegionsComplete | src/core/layout_analyzer.py:230-255 | every band that holds an element yields a region |
| LayoutAnalyzer.BandsDisjoint | src/core/layout_analyzer.py:232-241 | with sorted starts, no left edge falls in two bands |
| LayoutAnalyzer.BandsLeaveGaps | src/core/layout_analyzer.py:232-241 | starts 0 and 15 leave an element at x0 = 8 in no band |
| LayoutAnalyzer.DetectColumns | src/core/layout_analyzer.py:203-255 | the result is the column layout: nothing for no elements, one page-wide column for one cluster, else the non-empty bands |
| LayoutAnalyzer.ColumnRegions | src/core/layout_analyzer.py:230-255 | the loop builds the band regions of every cluster start |
| LayoutAnalyzer.LeftEdges | src/core/layout_analyzer.py:210-213 | the loop collects every element's left edge, in order |
| LayoutAnalyzer.BandElements | src/core/layout_analyzer.py:237-241 | the loop keeps exactly the elements whose left edge lies in the band, in order |
| LayoutAnalyzer.NonEmptyOfElements | src/core/layout_analyzer.py:278-351 | dropping empty candidate regions loses no element and keeps only non-empty ones |
| LayoutAnalyzer.SplitSpecialPartition | src/core/layout_analyzer.py:278-351 | splitting a region into header, footer and main parts yields at most two regions and loses or duplicates no element |
| LayoutAnalyzer.SplitSpecialPieces | src/core/layout_analyzer.py:278-351 | pieces keep the column index; a header piece holds only elements starting above `height - 50`, a footer piece only elements ending below 50 |
| LayoutAnalyzer.SpecialLayoutAppend | src/core/layout_analyzer.py:287-349 | the regions are processed one at a time, results concatenated in order |
| LayoutAnalyzer.SpecialLayoutPartition | src/core/layout_analyzer.py:278-351 | the special-region pass keeps every element of every region exactly once |
| LayoutAnalyzer.DetectSpecialRegions | src/core/layout_analyzer.py:278-351 | the loop computes the special-region layout |
| LayoutAnalyzer.SplitRegion | src/core/layout_analyzer.py:289-349 | one region's step computes its header/footer/main split |
| LayoutAnalyzer.KeepNonEmpty | src/core/layout_analyzer.py:302-318 | keeps the candidate regions that have elements, in order |
| LayoutAnalyzer.SplitElements | src/core/layout_analyzer.py:294-300 | the loop sends each element to exactly one side of the test, keeping order on both |
| LayoutAnalyzer.TextWrappingAsIntervals | src/core/layout_analyzer.py:390-406 | the text wraps the image exactly when one of its vertical edges is within 10 of the image's facing edge and the vertical intervals, widened by 10, overlap |
| LayoutAnalyzer.TextWrapPairs | src/core/layout_analyzer.py:369-388 | the pairs the loops flag are exactly the (image, paragraph-or-heading) index pairs that pass the wrap test |
| LayoutAnalyzer.MarginsEnclose | src/core/layout_analyzer.py:408-431 | every element lies within the margins |
| LayoutAnalyzer.MarginsAttained | src/core/layout_analyzer.py:408-431 | a non-empty page's left and right margins are the page width or are attained by an element |
| LayoutAnalyzer.MarginsOfWhole | src/core/layout_analyzer.py:415-431 | the margins are the loop's final running extremes |
| LayoutAnalyzer.CalculateMargins | src/core/layout_analyzer.py:408-431 | the loop computes the margins: 50 on each side for no elements, else the extremes measured from the page edges |
| LayoutAnalyzer.GetElementPrecisePosition | src/core/layout_analyzer.py:433-459 | a position exists exactly when neither page side is zero (the source divides by them) |
| LayoutAnalyzer.PrecisePositionValues | src/core/layout_analyzer.py:433-459 | absolute values are the box's; relative ones are the box's edges and sizes as percentages of the page, y measured from the top |
| LayoutAnalyzer.PrecisePositionInPage | src/core/layout_analyzer.py:433-459 | a box inside the page has its relative left and right edges and its relative top within 0..100 |
| TypstGenerator.SetupConfig | src/core/typst_generator.py:27-88 | no overrides give the default configuration; every given override wins over its default |
| TypstGenerator.PageStrategy | src/core/typst_generator.py:309-327 | absolute exactly when an absolute region exists and precise positioning is on; else columns exactly when there is more than one column and column detection is on; else a single column |
| TypstGenerator.AnalyzedPagesRenderAbsolutely | src/core/typst_generator.py:309-327 | under the default configuration an analyzed page is rendered absolutely exactly when it has elements, and by the single-column path otherwise |
| TypstGenerator.AbsolutePosition | src/core/typst_generator.py:770-829 | whatever the box, left in 0..90, top in 0..95, width in 10..80, height in 5..60, and neither running past 100%; a position already within those bounds is kept |
| TypstGenerator.CalculateAbsolutePosition | src/core/typst_generator.py:770-829 | the clamps applied one after another compute the clamped position |
| TypstGenerator.BboxesOverlapMeaning | src/core/typst_generator.py:483-490 | two proper boxes overlap exactly when some point lies strictly inside both; the test is symmetric and boxes that only touch do not overlap |
| TypstGenerator.TooCloseMeaning | src/core/typst_generator.py:506-513 | a horizontal or vertical gap of at least the threshold is never too close; overlapping boxes always are; the test is symmetric |
| TypstGenerator.SquareMonotone | src/core/typst_generator.py:511-513 | comparing squared distances decides the same as comparing distances |
| TypstGenerator.ElementsOverlapOrConflict | src/core/typst_generator.py:456-481 | the loop reports a clash exactly when the new element overlaps, or as an image beside text is too close to, some element of the group |
| TypstGenerator.AddToGroups | src/core/typst_generator.py:430-449 | one loop step: the first element opens a group; a clash closes the group and opens a new one; otherwise the element joins the group |
| TypstGenerator.GroupElementsBySpatialRelationship | src/core/typst_generator.py:421-454 | the groups, flattened, are the elements in order; every group is non-empty, no member clashes with the members before it, and each group's first element clashed with the previous group |
| TypstGenerator.CloseGroups | src/core/typst_generator.py:451-454 | closing the open group at the end keeps the partition and its clash properties |
| TypstGenerator.CalculateGroupBbox | src/core/typst_generator.py:558-584 | none exactly for an empty group; otherwise the union of the members' boxes: it contains each of them and each of its four bounds is attained by a member |
| TypstGenerator.HeadingLineReadsBack | src/core/typst_generator.py:973-976 | a heading line starts with as many '=' as the level clamped into 1..6, then one space, then exactly the title |
| TypstGenerator.PhraseIsNotHeading | src/core/typst_generator.py:978-1009 | a title containing "which" is never rendered as a heading |
| TypstGenerator.GenerateParagraph | src/core/typst_generator.py:1050-1077 | the loop computes the paragraph markup: styled blocks joined by spaces, mixed content separated, wrapped by the alignment |
| TypstGenerator.StyleBlock | src/core/typst_generator.py:1056-1062 | one block's text escaped, then bold and italic marks applied |
| TypstGenerator.ParagraphMarkupOfPlainText | src/core/typst_generator.py:1050-1077 | for plain unstyled blocks the markup is the repaired `Paragraph.text` inside its alignment wrapper |
| TypstGenerator.GenerateTable | src/core/typst_generator.py:1079-1109 | the nested loop computes the table markup: "" without cells, else the column spec, stroke, fill and every grid cell |
| TypstGenerator.RowCells | src/core/typst_generator.py:1089-1092 | the inner loop escapes and brackets every cell of a row, in order |
| TypstGenerator.GridIsTableGrid | src/core/typst_generator.py:1083-1085 | the grid `to_2d_array` returns is the table's grid |
| TypstGenerator.TableGridCell | src/core/typst_generator.py:1079-1109 | the markup has rows x cols cell expressions, and the one at row r, column c is the bracketed escaped text of that grid cell |
| TypstGenerator.GenerateList | src/core/typst_generator.py:1127-1147 | the loop computes the list markup |
| TypstGenerator.ListMarkupLines | src/core/typst_generator.py:1127-1147 | splitting the markup at newlines gives back exactly one line per item, in order: indent by level, '+' or '-' by list type, then the cleaned escaped text |
| TypstGenerator.RenderPlain | src/core/typst_generator.py:363-374 | the dispatch on the element kind renders each kind with its own renderer |
| TypstGenerator.HeadingPlacement | src/core/typst_generator.py:845-850 | right beyond 75, centred strictly between 25 and 75, left otherwise, including exactly 75 |
| TypstGenerator.TablePlacement | src/core/typst_generator.py:897-902 | right beyond 60, centred in (20, 60], left otherwise |
| TypstGenerator.ImagePlacement | src/core/typst_generator.py:930-935 | right beyond 70, centred in (20, 70], left otherwise |
| TypstGenerator.IndentPlacement | src/core/typst_generator.py:869-871 | padded by rel_x / 10 em exactly when rel_x exceeds 10, else left as is |
| TypstGenerator.PlacementMonotone | src/core/typst_generator.py:845-935 | moving right never moves a table or image to a placement further left; a heading at exactly 75 drops back to the left |
| TypstGenerator.WrapKeepsBase | src/core/typst_generator.py:831-962 | every placement wrapper keeps the wrapped markup intact |
| TypstGenerator.Positioned | src/core/typst_generator.py:831-962 | fails exactly when the position is missing and the renderer reads it: an image with a path always does, other kinds only under precise positioning |
| TypstGenerator.PositionedMarkup | src/core/typst_generator.py:831-962 | fails exactly when a page side is zero and the renderer reads the position |
| TypstGenerator.PositionedKeepsPlain | src/core/typst_generator.py:831-902 | a positioned heading, paragraph, table or list contains its plain markup, and is exactly it without precise positioning |
| TypstGenerator.ContentPosition | src/core/typst_generator.py:770-829 | none exactly when the content width or height is zero; otherwise a position within the clamp bounds |
| TypstGenerator.Absolute | src/core/typst_generator.py:688-769 | fails exactly when the position is missing, unless the element is an image without a path (the missing-file comment) |
| TypstGenerator.AbsoluteMarkup | src/core/typst_generator.py:688-769 | fails exactly when the page has no content area, unless the element is an image without a path |
| TypstGenerator.AbsolutePlaced | src/core/typst_generator.py:688-769 | an absolutely placed element opens with `#place` at its position and holds the plain markup of a heading, paragraph, table or list |
| TypstGenerator.InnerHoldsBase | src/core/typst_generator.py:688-769 | the content inside the directive holds the plain markup |
| TypstGenerator.FigureReferencesPath | src/core/typst_generator.py:1117-1120 | a figure calls `image` on its path |
| TypstGenerator.ImageMarkupReferencesPath | src/core/typst_generator.py:1111-1125 | an image with a path is a figure naming it; without one, the missing-file comment |
| TypstGenerator.PositionedImageReferencesPath | src/core/typst_generator.py:904-942 | a positioned image with a path names it; without one, the missing-file comment |
| TypstGenerator.AbsoluteImageReferencesPath | src/core/typst_generator.py:733-753 | an absolute image with a path names it; without one, the missing-file comment |
| TypstPages.PositionedRendererOf | src/core/typst_generator.py:659-678 | the region renderer uses the positioned markup with the image's found path |
| TypstPages.AbsoluteRendererOf | src/core/typst_generator.py:378-408 | the absolute renderer uses the absolute markup with the image's found path |
| TypstPages.RenderAll | src/core/typst_generator.py:659-678 | succeeds exactly when every item renders, giving the renderings in order |
| TypstPages.RenderAllAppend | src/core/typst_generator.py:659-678 | rendering a concatenation renders both parts |
| TypstPages.RenderAllPrefixFails | src/core/typst_generator.py:659-678 | a failure in a prefix fails the whole |
| TypstPages.Joined | src/core/typst_generator.py:678 | joining succeeds exactly when rendering did |
| TypstPages.PositionedRendererFails | src/core/typst_generator.py:659-678 | an element fails exactly on a page with a zero side when its renderer reads the position |
| TypstPages.RegionContentFails | src/core/typst_generator.py:659-678 | a region fails exactly on a page with a zero side holding such an element |
| TypstPages.RenderEach | src/core/typst_generator.py:659-678 | the loop renders the items one by one, stopping at the first failure |
| TypstPages.GenerateRegionContent | src/core/typst_generator.py:659-678 | the loop computes the region content |
| TypstPages.LayoutGroups | src/core/typst_generator.py:410-419 | one singleton group per element |
| TypstPages.LayoutGroupsFlatten | src/core/typst_generator.py:410-419 | the groups, flattened, are the region's elements sorted by ascending y0, a permutation of them |
| TypstPages.FlattenGroupsMember | src/core/typst_generator.py:386-406 | every element of every group of every region is rendered |
| TypstPages.AbsoluteRendererFails | src/core/typst_generator.py:688-769 | an element fails exactly when the page has no content area and it is not a path-less image |
| TypstPages.AbsoluteLayoutFails | src/core/typst_generator.py:378-408 | the absolute layout fails exactly when the page has no content area and some element other than a path-less image is placed |
| TypstPages.AbsoluteElementsOfRegions | src/core/typst_generator.py:378-419 | the absolute layout renders the elements of the absolute regions, each exactly once |
| TypstPages.RenderInto | src/core/typst_generator.py:390-406 | the inner loop extends the rendering of what came before |
| TypstPages.RenderGroupsInto | src/core/typst_generator.py:390-406 | the group loop extends the rendering by every group's elements |
| TypstPages.RenderGroups | src/core/typst_generator.py:386-406 | the nested loops render every element of every group of every region, in order |
| TypstPages.GenerateAbsoluteLayout | src/core/typst_generator.py:378-408 | the loops compute the absolute layout markup |
| TypstPages.ColumnsMarkup | src/core/typst_generator.py:612-640 | "" without column regions; failure (the division by the page width) when the page width is zero |
| TypstPages.ColumnsBlockHoldsColumns | src/core/typst_generator.py:632-640 | the columns block holds every column's boxed content |
| TypstPages.ColumnsMarkupShape | src/core/typst_generator.py:612-640 | successful column markup opens with `#columns(n, gutter: 1em)[` for n column regions and holds every column's boxed content |
| TypstPages.GenerateMultiColumnLayout | src/core/typst_generator.py:612-640 | the loops compute the column markup |
| TypstPages.SingleColumnOrder | src/core/typst_generator.py:642-657 | regions are rendered once each, headers before body before footers |
| TypstPages.GenerateSingleColumnLayout | src/core/typst_generator.py:642-657 | the loop computes the single-column markup, keeping non-blank region contents |
| TypstPages.GeneratePageWithLayout | src/core/typst_generator.py:309-327 | renders the analyzed layout of the page by the chosen strategy |
| TypstPages.GenerateLayout | src/core/typst_generator.py:318-325 | the strategy dispatch computes the page markup |
| TypstPages.SingleAbsoluteRegion | src/core/typst_generator.py:318-325 | a page with one absolute region under precise positioning is rendered absolutely, its elements by ascending y0 |
| TypstPages.AnalyzedPageIsAbsolute | src/core/typst_generator.py:309-327 | under precise positioning an analyzed page with elements is rendered absolutely, every element once, by ascending y0 |
| TypstPages.ImageItems | src/core/typst_generator.py:349-351 | the i-th image of the page is paired with the i-th path, or "" beyond the paths |
| TypstPages.SimpleItemsOrder | src/core/typst_generator.py:337-355 | the simple page collects headings, paragraphs, tables, images and lists, in that order |
| TypstPages.SimpleItemsAreCollected | src/core/typst_generator.py:329-355 | the simple page collects the same elements, in the same order, as the layout analysis |
| TypstPages.SimplePageOrder | src/core/typst_generator.py:357-358 | the simple page renders every collected element once, the higher y0 first |
| TypstPages.SimplePageImagePaths | src/core/typst_generator.py:349-351 | the i-th image of a page is rendered with the document's i-th path, not with the path named after it |
| TypstPages.GeneratePageSimple | src/core/typst_generator.py:329-376 | the loops compute the simple page markup |
| TypstPages.PageNumbers | src/core/typst_generator.py:288 | the pages 1 to n, in order |
| TypstPages.WithBreaksShape | src/core/typst_generator.py:300-305 | pages alternate with page breaks: even positions hold pages in order, odd positions breaks |
| TypstPages.JoinWithBreaks | src/core/typst_generator.py:300-307 | the main content is the pages joined by a page break between blank lines |
| TypstPages.MainContentFails | src/core/typst_generator.py:282-307 | the main content fails exactly when some page from 1 to the page count fails |
| TypstPages.NumberedRenderFails | src/core/typst_generator.py:288-305 | rendering pages 1 to n fails exactly when one of them fails |
| TypstPages.GeneratePage | src/core/typst_generator.py:289-298 | renders a page with the layout or the simple renderer as configured |
| TypstPages.WithBreaksSnoc | src/core/typst_generator.py:300-305 | a further page adds a break and the page |
| TypstPages.PartsAfterSnoc | src/core/typst_generator.py:300-305 | the loop appends the page and, on a multi-page document before the last page, a break |
| TypstPages.RenderWithBreaks | src/core/typst_generator.py:288-305 | the loop renders the pages with breaks between them, failing exactly when a page fails |
| TypstPages.GenerateMainContent | src/core/typst_generator.py:282-307 | the loop computes the main content |
| TypstText.EscapeTypstText | src/core/typst_generator.py:1178-1202 | empty text stays empty; otherwise every entry of the escape table is applied to the whole text in table order, the backslash entry last |
| TypstText.EscapePlainText | src/core/typst_generator.py:1198-1200 | text without any markup character or backslash passes the escape table unchanged |
| TypstText.EscapeDoublesBackslash | src/core/typst_generator.py:1184-1200 | because the backslash entry runs last, a lone markup character comes out as two backslashes and the character |
| TypstText.EscapePrefixSteps | src/core/typst_generator.py:1198-1200 | a lone markup character is untouched by the entries before its own, and gets exactly one backslash from its own entry |
| TypstText.EscapeText | src/core/typst_generator.py:1178-1202 | the intended escaping (each markup character escaped once) never shortens the text and is empty exactly for empty text |
| TypstText.EscapeTextAppend | src/core/typst_generator.py:1178-1202 | the intended escaping works character by character: escaping a concatenation concatenates the escapes |
| TypstText.EscapeRoundTrip | src/core/typst_generator.py:1178-1202 | Typst's reading of backslash escapes gives back exactly the original text after the intended escaping |
| TypstText.EscapeCharsExample | src/core/typst_generator.py:1178-1202 | "#" becomes "\#" under the intended escaping but "\\#" under the table as written |
| TypstText.EscapeAsWrittenLosesText | src/core/typst_generator.py:1178-1202 | the escaping as written does not read back: "#" reads back as a backslash and a bare "#" |
| TypstText.DotCapSpace | src/core/typst_generator.py:1019 | the full-stop rule keeps the first character of non-empty text |
| TypstText.DotCapSpaceSeparates | src/core/typst_generator.py:1019 | after the full-stop rule no full stop is directly followed by a capital |
| TypstText.DotCapSpaceNoop | src/core/typst_generator.py:1019 | text with no full stop before a capital is unchanged by the rule |
| TypstText.CapsSplit | src/core/typst_generator.py:1022 | the capital-run rule keeps the first character of non-empty text |
| TypstText.CapsSplitRun | src/core/typst_generator.py:1022 | a word of six or more capitals is cut by one space before its last three letters |
| TypstText.CapsSplitLongRun | src/core/typst_generator.py:1022 | a leading run of six or more capitals is cut before its last three, and the rest is processed after the run |
| TypstText.DigitLetterSpace | src/core/typst_generator.py:1044 | the digit-letter rule keeps the first character of non-empty text |
| TypstText.LetterDigitSpace | src/core/typst_generator.py:1045 | the letter-digit rule keeps the first character of non-empty text |
| TypstText.DigitLetterSeparates | src/core/typst_generator.py:1044 | after the digit-letter rule no digit is directly followed by an ASCII letter |
| TypstText.LetterDigitSeparates | src/core/typst_generator.py:1045 | after the letter-digit rule no ASCII letter is directly followed by a digit |
| TypstText.LetterDigitKeepsSeparation | src/core/typst_generator.py:1044-1045 | the letter-digit rule introduces no digit-letter join, so the separation of the first rule survives the second |
| TypstText.StripKeepsSeparation | src/core/typst_generator.py:1044-1047 | stripping keeps both separations |
| TypstText.SeparateMixedContentSpacesDigits | src/core/typst_generator.py:1011-1048 | the repaired text never has a digit directly against an ASCII letter, on either side |
| TypstText.ReplaceAllAbsent | src/core/typst_generator.py:1040-1041 | replacing a pattern that does not occur leaves the text unchanged |
| TypstText.FixesSkipCapitals | src/core/typst_generator.py:1024-1041 | the first twelve word repairs, each with a lower-case letter, leave text without lower-case letters unchanged |
| TypstText.CapsRunSplit | src/core/typst_generator.py:1011-1048 | a single word of 6 to 22 capitals comes out cut before its last three letters |
| TypstText.CapsSplitSurvivesFixes | src/core/typst_generator.py:1024-1041 | no word repair touches a capital run once it is cut by a space |
| TypstText.ApplyLastFix | src/core/typst_generator.py:1037-1041 | when the first twelve repairs change nothing and the last pattern is absent, the whole repair table changes nothing |
| TypstText.LastFixAbsent | src/core/typst_generator.py:1037 | the "ABERRATIONSSURVIVORS" repair cannot match a capital run of fewer than 23 letters once it is cut by a space |
| TypstText.NoDigitsUnchanged | src/core/typst_generator.py:1044-1045 | text without digits passes both digit rules unchanged |
| TypstText.AberrationsNotRepaired | src/core/typst_generator.py:1022-1037 | a twenty-capital heading such as "ABERRATIONSSURVIVORS" is cut after 17 letters by the capital-run rule, so the repair meant to cut it after 11 never applies |
| TypstText.DropLeading | src/core/typst_generator.py:1206-1207 | removing a leading match and the white space after it leaves a tail of the text |
| TypstText.CleanStep | src/core/typst_generator.py:1206-1209 | one removal step on stripped text leaves a stripped tail of it |
| TypstText.DropNumber | src/core/typst_generator.py:1206 | removing a leading dotted number leaves a stripped tail of the stripped text |
| TypstText.DropOrdinal | src/core/typst_generator.py:1207 | removing a leading chapter ordinal ("第…章" / "第…节") leaves a stripped tail of the stripped text |
| TypstText.CleanHeadingText | src/core/typst_generator.py:1204-1210 | the cleaned heading text is stripped and a tail of the stripped text |
| TypstText.CleanHeadingTextUnnumbered | src/core/typst_generator.py:1204-1210 | a heading that starts with neither a digit nor "第" is only stripped |
| TypstText.CleanHeadingTextNumbered | src/core/typst_generator.py:1204-1210 | a dotted section number followed by a space and a title leaves exactly the title |
| TypstText.DropNumberNumbered | src/core/typst_generator.py:1206 | the number pattern removes a dotted number and its space and nothing of the title |
| TypstText.DropOrdinalUnmarked | src/core/typst_generator.py:1207 | stripped text not starting with "第" is untouched by the ordinal pattern |
| TypstText.StripListMarkersTail | src/core/typst_generator.py:1212-1221 | the marker patterns leave a tail of the text, and leave it whole when none of them matches |
| TypstText.StripListMarkersUnchanged | src/core/typst_generator.py:1215-1219 | patterns that do not match change nothing |
| TypstText.CleanListItemTextMeaning | src/core/typst_generator.py:1212-1221 | the cleaned item text is stripped and is the stripped form of some tail of the text |
| TypstText.CleanListItemTextPlain | src/core/typst_generator.py:1212-1221 | text that no marker pattern matches is only stripped |
| TypstText.FirstFontMatch | src/core/typst_generator.py:1227-1229 | no family exactly when no fragment occurs in the name; otherwise the family of the first fragment that occurs |
| TypstText.MapFontFamily | src/core/typst_generator.py:1223-1232 | the configured family when no fragment of the table occurs in the lower-cased name; otherwise the family of the first fragment in table order that occurs |
| TypstText.FirstContaining | src/core/typst_generator.py:680-686 | "" when no path contains the name; otherwise the first path that contains it |
| TypstText.FindImagePath | src/core/typst_generator.py:680-686 | the loop returns the first image path containing the file name, or "" |
| FixTypst.EscapeSpecials | fix_typst_generation.py:14-16 | every quote and square bracket of the result is preceded by a backslash, and nothing is removed |
| FixTypst.EscapeRoundTrip | fix_typst_generation.py:14-16 | dropping the inserted backslashes gives the text back: escaping loses nothing |
| FixTypst.ReplaceSpecialsIsEscape | fix_typst_generation.py:14-16 | the three `replace` calls in sequence equal the one-pass escaping |
| FixTypst.MapChainIsEscape | fix_typst_generation.py:14-16 | the three character maps in sequence equal the one-pass escaping |
| FixTypst.CollapseKeepsEscapes | fix_typst_generation.py:18 | collapsing white space keeps every special character behind its backslash |
| FixTypst.CleanTextShape | fix_typst_generation.py:11-19 | the cleaned text is stripped, single-spaced, and every quote and bracket in it is escaped |
| FixTypst.EscapeBlank | fix_typst_generation.py:14-16 | escaping makes text blank exactly when it was blank |
| FixTypst.CollapseBlank | fix_typst_generation.py:18 | collapsing white space makes text blank exactly when it was blank |
| FixTypst.CleanTextEmptyIffBlank | fix_typst_generation.py:11-19 | the cleaned text is empty exactly when the text is blank, so the `if not text` tests after cleaning drop exactly the blank blocks |
| FixTypst.FirstContained | fix_typst_generation.py:31-33 | the index of the first word that occurs in the text; none exactly when no word occurs |
| FixTypst.IsTitle | fix_typst_generation.py:21-35 | a title exactly when the text is shorter than 100 characters and its upper-cased form contains a keyword; the keyword returned is the first in list order that it contains |
| FixTypst.FirstFound | fix_typst_generation.py:31-35 | a word exactly when enabled and some word occurs; then the first one in list order |
| FixTypst.SplitAtFirstSplits | fix_typst_generation.py:37-55 | two parts exactly when some separator occurs: the text is `pre + sep + post` with `sep` the first separator in list order that occurs and `pre` free of it, and the parts are stripped `pre` and `sep` before stripped `post`; otherwise [] for blank text and the text alone otherwise |
| FixTypst.SeparateMixedContentSplits | fix_typst_generation.py:37-55 | the split above for the six separators of `separate_mixed_content` |
| FixTypst.SplitAtOccurrence | fix_typst_generation.py:50-53 | `split(sep, 1)` cuts at the first occurrence: the part before it does not contain the separator |
| FixTypst.BucketsPartition | fix_typst_generation.py:67-82 | header, footer, left and right column together hold every block with text exactly once |
| FixTypst.PageBuckets | fix_typst_generation.py:67-88 | the four sorted buckets hold every block with text exactly once, each ordered top to bottom |
| FixTypst.SplitIntoColumns | fix_typst_generation.py:67-82 | the loop puts exactly the blocks with text into the bucket their position selects, in page order |
| FixTypst.ParagraphLines | fix_typst_generation.py:136-138 | every line a list of text parts adds is one of the parts or blank |
| FixTypst.TitleHeadingEscaped | fix_typst_generation.py:124-130 | a title line keeps the cleaned text's escapes |
| FixTypst.SeparatedLinesEscaped | fix_typst_generation.py:134-138 | every line of the separated parts keeps the cleaned text's escapes |
| FixTypst.LeftLinesEscaped | fix_typst_generation.py:114-138 | every line a left-column block adds has every quote and bracket escaped |
| FixTypst.RightLinesEscaped | fix_typst_generation.py:147-157 | every line a right-column block adds has every quote and bracket escaped |
| FixTypst.ColumnBodyEscaped | fix_typst_generation.py:108-160 | every line inside the column block has every quote and bracket escaped |
| FixTypst.ColumnBlockClosed | fix_typst_generation.py:108-160 | the column block opens with `#columns(2, gutter: 1cm)[`, ends with the line `]`, and no line in between is `]`, so page text cannot close the block early |
| FixTypst.ImageSectionFigures | fix_typst_generation.py:162-173 | the image section has 2 + 5 lines per image; image i gets a `#figure(` line, an `image(...)` line naming its file, and the caption `Figure i+1` |
| FixTypst.ExtendEach | fix_typst_generation.py:102-105 | a loop appending each item's lines appends their concatenation |
| FixTypst.ExtendFigures | fix_typst_generation.py:166-173 | the figure loop appends five lines per image, numbered from 1 |
| FixTypst.ExtendSection | fix_typst_generation.py:111-138 | fixed lines then each item's lines are appended in turn |
| FixTypst.ExtendBlock | fix_typst_generation.py:108-160 | an opening line, two sections and the closing lines are appended in turn |
| FixTypst.ExtendColumns | fix_typst_generation.py:108-160 | the column block is appended as the page function defines it |
| FixTypst.ExtendImages | fix_typst_generation.py:162-173 | the image section is appended only when the page has images |
| FixTypst.ExtendFooter | fix_typst_generation.py:175-181 | the footer section is appended only when the footer has blocks |
| FixTypst.GenerateCorrectTypst | fix_typst_generation.py:57-183 | the page text is the settings, header, column block, images and footer lines joined by newlines |
| TypstHelper.FirstQuote | http_api/typst_helper.py:155 | the index of the first double quote, none exactly when there is no quote |
| TypstHelper.CallEnd | http_api/typst_helper.py:155 | a match at the start of the text is `image("`, a non-empty run of non-quote characters and a closing quote, and ends at that quote |
| TypstHelper.CallEndOfCall | http_api/typst_helper.py:155-158 | a call with a non-empty quote-free path matches exactly up to its closing quote, and the captured path is that path |
| TypstHelper.FixCallAtStart | http_api/typst_helper.py:157-164 | a call at the start is kept when its path has a '/', else its path is put under the image directory; the scan goes on after the call |
| TypstHelper.FixWithoutCalls | http_api/typst_helper.py:141-164 | text without `image("` is left as it is |
| TypstHelper.FixKeepsPrefix | http_api/typst_helper.py:141-164 | the first seven characters of the text survive the fix |
| TypstHelper.FixWithoutLateQuotes | http_api/typst_helper.py:141-164 | text with no quote from index 6 on holds no match and is left as it is |
| TypstHelper.FixCallShape | http_api/typst_helper.py:157-162 | a rewritten call has a non-empty quote-free path that contains '/' |
| TypstHelper.NoNewCall | http_api/typst_helper.py:164 | where the scan finds no match, the copied character and the fixed rest do not form one |
| TypstHelper.NoNewCallWithoutOpener | http_api/typst_helper.py:164 | text not starting with `image("` does not start one after the fix |
| TypstHelper.NoNewCallAfterOpener | http_api/typst_helper.py:164 | an opener that is not a match does not become one after the fix |
| TypstHelper.EmptyPathStays | http_api/typst_helper.py:155 | `image("` followed at once by a quote stays no match after the fix |
| TypstHelper.EmptyPathNoCall | http_api/typst_helper.py:155 | `image("` followed at once by a quote is no match, the path being empty |
| TypstHelper.FixIdempotent | http_api/typst_helper.py:141-164 | for a directory name without quotes, fixing twice gives the same text as fixing once |
| TypstHelper.FixSkipsPrefix | http_api/typst_helper.py:164 | characters where no match can start are copied unchanged |
| TypstHelper.NotCallStart | http_api/typst_helper.py:164 | a text not starting with `im` keeps its first character, and the scan continues after it |
| TypstHelper.FigureOpenSkipped | http_api/typst_helper.py:113-114 | the opening of a figure holds no match and is copied by the fixer |
| TypstHelper.FigureUnchangedByFix | http_api/typst_helper.py:106-164 | a figure whose path already names a directory comes out of the fixer unchanged |
| TypstHelper.FirstTitleBlock | http_api/typst_helper.py:44-49 | the index of the first block larger than 12pt with a bold style; none exactly when no block is one |
| TypstHelper.TitleCase | http_api/typst_helper.py:53 | title-casing keeps the length |
| TypstHelper.TitleCaseIdempotent | http_api/typst_helper.py:53 | title-casing twice is title-casing once |
| TypstHelper.FindTitle | http_api/typst_helper.py:41-53 | the loop writes the first title block's stripped text, else the file stem with '_' read as ' ', title-cased |
| TypstHelper.KindIsStatic | http_api/typst_helper.py:57-87 | away from the page-1 title check, a block's kind and line depend on the block alone |
| TypstHelper.HandleBlocksStep | http_api/typst_helper.py:57-87 | one step of the text-block loop appends the last block's line, judged against the output before it |
| TypstHelper.HandleBlocksOutput | http_api/typst_helper.py:57-87 | away from the page-1 title check, the output gains each block's line in block order |
| TypstHelper.HandleBlocksBody | http_api/typst_helper.py:57-87 | away from the page-1 title check, the body texts are the stripped texts of exactly the body blocks, in order |
| TypstHelper.BodyStep | http_api/typst_helper.py:86-87 | one step adds a block's stripped text to the body exactly when it is a body block |
| TypstHelper.HandleBlocksExtends | http_api/typst_helper.py:57-87 | the text-block loop only appends to the output |
| TypstHelper.HandleBlocksSnoc | http_api/typst_helper.py:57-87 | one more block updates both the output and the body texts as one loop iteration does |
| TypstHelper.AddBlock | http_api/typst_helper.py:58-87 | one block appends the line of its kind, and its stripped text joins the body exactly when it is body text |
| TypstHelper.AddBlocks | http_api/typst_helper.py:57-87 | the text-block loop computes the output and the body texts as specified |
| TypstHelper.PendingEmits | http_api/typst_helper.py:102-103 | the pending short texts are emitted as at most one paragraph holding exactly them |
| TypstHelper.ParagraphTextEmitsParagraphs | http_api/typst_helper.py:90-103 | the paragraph loop emits exactly the paragraphs it forms, in order, each joined by spaces and followed by a blank line |
| TypstHelper.ParagraphsCover | http_api/typst_helper.py:90-103 | the paragraphs, concatenated, are the body texts: nothing lost, nothing reordered |
| TypstHelper.ParagraphsShape | http_api/typst_helper.py:90-103 | every paragraph is a text longer than 200 characters on its own or a run of shorter texts |
| TypstHelper.ParagraphsMaximal | http_api/typst_helper.py:90-103 | no two neighbouring paragraphs are both runs of short texts |
| TypstHelper.AddParagraphs | http_api/typst_helper.py:90-103 | the paragraph loop with its buffer appends the paragraph text of the body texts |
| TypstHelper.FigureList | http_api/typst_helper.py:106-118 | one figure per image |
| TypstHelper.AddFigures | http_api/typst_helper.py:106-118 | the figure loop appends one figure per image, in image order, numbered page-index from 1 |
| TypstHelper.RowLineEmptyIff | http_api/typst_helper.py:129-134 | a row gets a line exactly when some cell lies in it |
| TypstHelper.RowLineContains | http_api/typst_helper.py:130-134 | a row's line holds each of the row's cells, bracketed |
| TypstHelper.RowLinesContain | http_api/typst_helper.py:129-134 | the row lines hold every cell of the rows they cover |
| TypstHelper.TableKeepsCells | http_api/typst_helper.py:121-136 | a table with rows and columns holds every cell that lies in one of its rows, bracketed |
| TypstHelper.AddRows | http_api/typst_helper.py:129-134 | the row loop appends the lines of rows 0 to rows - 1 |
| TypstHelper.AddTableHead | http_api/typst_helper.py:123-125 | the three opening lines of a table are appended |
| TypstHelper.AddTable | http_api/typst_helper.py:122-136 | one table appends its text |
| TypstHelper.NoTableText | http_api/typst_helper.py:122 | a table without rows or columns adds nothing |
| TypstHelper.AddTables | http_api/typst_helper.py:121-136 | the table loop appends the tables' text in order |
| TypstHelper.FoldSnoc | http_api/typst_helper.py:37-38 | the page loop over one more page is one more step, numbered from 1 |
| TypstHelper.FoldPrefix | http_api/typst_helper.py:37-136 | when each step only appends, the output for the first k pages is a prefix of the whole |
| TypstHelper.PageStepExtends | http_api/typst_helper.py:37-136 | a page only appends, and page 1 first appends the document title |
| TypstHelper.PageStepHasParts | http_api/typst_helper.py:105-136 | every figure and every table with rows and columns of the page is in what the page adds |
| TypstHelper.SmartContentPrefix | http_api/typst_helper.py:37-136 | the output for the first k pages is a prefix of the whole output |
| TypstHelper.SmartContentSnoc | http_api/typst_helper.py:37-136 | the content for one more page is one more page step |
| TypstHelper.SmartContentOpensWithSetup | http_api/typst_helper.py:29-34 | the document opens with the page, text and paragraph settings |
| TypstHelper.SmartContentFirstHeading | http_api/typst_helper.py:29-53 | when there is a first page, the document title follows the settings |
| TypstHelper.SmartContentHasParts | http_api/typst_helper.py:12-138 | every image of every page gets its figure, numbered by page and position, and every table with rows and columns appears |
| TypstHelper.AddPage | http_api/typst_helper.py:37-136 | one page of the loop appends the page step |
| TypstHelper.GenerateSmartTypstContent | http_api/typst_helper.py:12-138 | the content is the settings followed by each page in turn |
| TypstHelper.Numbered | http_api/typst_helper.py:190-191 | one key per text |
| TypstHelper.NumberedSnoc | http_api/typst_helper.py:190-191 | one more caption gets the next key `caption_n` |
| TypstHelper.KeyedNumbered | http_api/typst_helper.py:180-191 | keying as the loop does numbers the selected texts in order |
| TypstHelper.CaptionsNumbered | http_api/typst_helper.py:167-193 | the captions are the stripped texts of the small-print, long, keyword-bearing blocks, in block order, keyed `caption_1`, `caption_2`, ... |
| TypstHelper.ExtractImageCaptions | http_api/typst_helper.py:167-193 | the loop builds the caption dictionary in insertion order |
| TypstHelper.EnhancedIsFixed | http_api/typst_helper.py:196-228 | without an image directory the enhanced content is the smart content; with one, fixing the result again changes nothing |
| TypstHelper.GenerateEnhancedTypst | http_api/typst_helper.py:196-228 | the smart content, with image paths fixed when there is an image directory |

## Left out

- I/O is not modelled: the PDF libraries (pdfplumber, PyMuPDF, PIL), file reading and writing, `_save_images`, logging, the CLI, and the MCP and HTTP servers. The text blocks, tables and images a parser would produce are inputs.
- Document-level generation in `src/core/typst_generator.py` is not modelled: `generate_document`, the document header, the dynamic page settings (pt→mm conversion), the title page, the table of contents, the font-mapping table output and the templates. The core modelled there ends at `_generate_main_content`.
- Regular expressions are hand-written scanners for the concrete patterns only. `\d` is an ASCII digit. `lower`, `upper`, `title` and `isupper` act on ASCII letters only, so Unicode case mapping is not modelled.
- Floating-point numbers are `real`. The `round(…, 2)` calls are dropped. Writing a float into markup (`f"{x}%"`) is the parameter `fmt`, so the digits written are not modelled.
- TypstGenerator.TooCloseMeaning: the `** 0.5` distance test is stated as a comparison of squared distances, which is equivalent for non-negative thresholds.
- A division by a zero page side raises in the source. Here it is the outcome `None`, and a page or document holding such an element is `None` as a whole.
- In-place mutation is modelled on values. `analyze_headings` and `analyze_lists` return new blocks with `element_type` set, and `_adjust_heading_levels` returns new headings. Aliasing is not modelled. In the source, a paragraph holds the same block objects that `analyze_lists` later tags as list items. Here each paragraph keeps its blocks as they were when it was built.
- The `hasattr`/`not bbox` branches for elements without a bounding box are not modelled. Every element class declares a required box, so these branches are unreachable.
- `_analyze_text_wrapping` sets `wraps_around` only on elements that have that attribute, and none does. The model computes the pairs it would flag (`LayoutAnalyzer.TextWrapPairs`) and changes nothing.
- LayoutAnalyzer.BandsLeaveGaps: the column bands of `_detect_columns` end 10 points before the next column starts, so an element starting in that gap belongs to no column. This is stated as a property of the source, not corrected.
- The caption dictionary is a sequence of key/value pairs in insertion order.
- The generator's configuration dictionary is a record of its known keys. A caller's overrides are a record of optional entries, so keys the generator does not read are not modelled.
- `Path` values are strings. An optional image directory is `Option<string>` holding its name. The output path is its stem.
- TypstHelper: the `is_italic` flag of `generate_smart_typst_content` is computed and never used, so it is not modelled. The `ai_analysis` argument of `generate_enhanced_typst_with_ai_analysis` has no effect and is not a parameter.
- TypstHelper.EnhancedIsFixed: it states that the fixed output is a fixed point of the fixer, not that every figure path ends up under the image directory. The fixer also rewrites page text that happens to contain `image("`. `TypstHelper.FigureUnchangedByFix` proves that the figures the emitter writes survive the fix.
- FixTypst.ColumnBlockClosed: it proves that no line between the column opener and the closing line is `]`. It does not prove that no page text reads as `#colbreak()`.
- FixTypst: `is_title` takes a `font_size` argument and never uses it. The branch that writes `text[:50]` when `is_title` returns no keyword is unreachable. Neither is modelled.
- TypstText.CapsRunSplit: it is stated for single capital words of 6 to 22 letters, where no repair in the table can match. Longer runs are covered only by the twenty-letter case of `TypstText.AberrationsNotRepaired`.
