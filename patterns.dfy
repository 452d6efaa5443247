/** The concrete regular expressions the analyzer and the generator use,
    written as prefix scanners: heading patterns, heading numbering, and the
    five list-marker patterns. `\d` is an ASCII digit and `\s` a character
    satisfying `IsSpace`. */
module Patterns {
  import opened Text

  /** The class `[一二三四五六七八九十]`. */
  predicate IsCjkNumeral(c: char)
  {
    c == '一' || c == '二' || c == '三' || c == '四' || c == '五'
    || c == '六' || c == '七' || c == '八' || c == '九' || c == '十'
  }

  /** The class `[一二三四五六七八九十\d]`. */
  predicate IsOrdinalChar(c: char)
  {
    IsCjkNumeral(c) || IsDigit(c)
  }

  // ------------------------------------------------- run-then-closer patterns

  /** What a backtracking matcher accepts for `^P+Q`: some non-empty run of
      `p` characters followed by a `q` character. */
  predicate RunThen(s: string, p: char -> bool, q: char -> bool)
  {
    exists n :: 1 <= n < |s| && q(s[n]) && forall i :: 0 <= i < n ==> p(s[i])
  }

  /** The greedy scan for `^P+Q`: take the longest `p` run, then look for `q`. */
  predicate ScanRunThen(s: string, p: char -> bool, q: char -> bool)
  {
    var n := RunLength(s, p);
    1 <= n < |s| && q(s[n])
  }

  /** When no `q` character is a `p` character the greedy scan decides the
      pattern exactly. */
  lemma GreedyScanIsMatch(s: string, p: char -> bool, q: char -> bool)
    requires forall c :: q(c) ==> !p(c)
    ensures ScanRunThen(s, p, q) <==> RunThen(s, p, q)
  {
    var n := RunLength(s, p);
    if ScanRunThen(s, p, q) {
      assert 1 <= n < |s| && q(s[n]) && forall i :: 0 <= i < n ==> p(s[i]);
    }
    if RunThen(s, p, q) {
      var m :| 1 <= m < |s| && q(s[m]) && forall i :: 0 <= i < m ==> p(s[i]);
      assert !p(s[m]);
    }
  }

  // -------------------------------------------------------- heading patterns

  /** `^第[一二三四五六七八九十\d]+章` (closer '章') and its '节' twin. */
  predicate OrdinalHeading(t: string, closer: char)
  {
    |t| >= 1 && t[0] == '第' && ScanRunThen(t[1..], IsOrdinalChar, c => c == closer)
  }

  /** `^\d+\.\d*\s*`: the optional tails never decide the match. */
  predicate NumberHeading(t: string)
  {
    ScanRunThen(t, IsDigit, c => c == '.')
  }

  /** `^[一二三四五六七八九十]+[、.]`. */
  predicate CjkNumberHeading(t: string)
  {
    ScanRunThen(t, IsCjkNumeral, c => c == '、' || c == '.')
  }

  /** `^[A-Z]+\.\s*`. */
  predicate LetterHeading(t: string)
  {
    ScanRunThen(t, IsUpper, c => c == '.')
  }

  /** `^Chapter\s+\d+` and `^Section\s+\d+`. */
  predicate WordHeading(t: string, word: string)
  {
    word <= t && ScanRunThen(t[|word|..], IsSpace, IsDigit)
  }

  /** One of the seven default heading patterns matches at the start of `t`. */
  predicate MatchesHeadingPattern(t: string)
  {
    || OrdinalHeading(t, '章') || OrdinalHeading(t, '节') || NumberHeading(t)
    || CjkNumberHeading(t) || LetterHeading(t)
    || WordHeading(t, "Chapter") || WordHeading(t, "Section")
  }

  /** The scanners agree with the patterns' backtracking reading. */
  lemma HeadingPatternsAreMatches(t: string)
    ensures MatchesHeadingPattern(t) <==>
      || (|t| >= 1 && t[0] == '第' && RunThen(t[1..], IsOrdinalChar, c => c == '章'))
      || (|t| >= 1 && t[0] == '第' && RunThen(t[1..], IsOrdinalChar, c => c == '节'))
      || RunThen(t, IsDigit, c => c == '.')
      || RunThen(t, IsCjkNumeral, c => c == '、' || c == '.')
      || RunThen(t, IsUpper, c => c == '.')
      || ("Chapter" <= t && RunThen(t[7..], IsSpace, IsDigit))
      || ("Section" <= t && RunThen(t[7..], IsSpace, IsDigit))
  {
    OrdinalHeadingIsMatch(t, '章');
    OrdinalHeadingIsMatch(t, '节');
    assert NumberHeading(t) <==> RunThen(t, IsDigit, c => c == '.') by {
      GreedyScanIsMatch(t, IsDigit, c => c == '.');
    }
    assert CjkNumberHeading(t) <==> RunThen(t, IsCjkNumeral, c => c == '、' || c == '.') by {
      GreedyScanIsMatch(t, IsCjkNumeral, c => c == '、' || c == '.');
    }
    assert LetterHeading(t) <==> RunThen(t, IsUpper, c => c == '.') by {
      GreedyScanIsMatch(t, IsUpper, c => c == '.');
    }
    WordHeadingIsMatch(t, "Chapter");
    WordHeadingIsMatch(t, "Section");
  }

  lemma OrdinalHeadingIsMatch(t: string, closer: char)
    requires closer == '章' || closer == '节'
    ensures OrdinalHeading(t, closer) <==>
              |t| >= 1 && t[0] == '第' && RunThen(t[1..], IsOrdinalChar, c => c == closer)
  {
    if |t| >= 1 {
      GreedyScanIsMatch(t[1..], IsOrdinalChar, c => c == closer);
    }
  }

  lemma WordHeadingIsMatch(t: string, word: string)
    requires |word| == 7
    ensures WordHeading(t, word) <==> word <= t && RunThen(t[7..], IsSpace, IsDigit)
  {
    if word <= t {
      GreedyScanIsMatch(t[7..], IsSpace, IsDigit);
    }
  }

  // ------------------------------------------------------- heading numbering

  /** A dotted number such as "1", "2.10" or "3.1.4": digit groups joined by
      single dots. */
  predicate IsDottedNumber(s: string)
  {
    && |s| > 0 && IsDigit(s[0]) && IsDigit(s[|s| - 1])
    && (forall i :: 0 <= i < |s| ==> IsDigit(s[i]) || s[i] == '.')
    && (forall i :: 0 <= i < |s| - 1 ==> s[i] == '.' ==> s[i + 1] != '.')
  }

  /** `n` is the length of the longest match of `(?:\.\d+)*` at the start
      of `u`: dot-digit groups, with no further group after them. */
  predicate DotGroupsMatch(u: string, n: nat)
  {
    && n <= |u|
    && (n > 0 ==> u[0] == '.' && IsDigit(u[n - 1]))
    && (forall i :: 0 <= i < n ==> IsDigit(u[i]) || u[i] == '.')
    && (forall i :: 0 <= i < n - 1 ==> u[i] == '.' ==> u[i + 1] != '.')
    && !(n + 1 < |u| && u[n] == '.' && IsDigit(u[n + 1]))
    && (n > 0 && n < |u| ==> !IsDigit(u[n]))
  }

  /** Length of the longest match of `(?:\.\d+)*` at the start of `u`. */
  function DotGroupsLength(u: string): (n: nat)
    ensures DotGroupsMatch(u, n)
    decreases |u|
  {
    if |u| >= 2 && u[0] == '.' && IsDigit(u[1]) then
      var d := RunLength(u[1..], IsDigit);
      var m := DotGroupsLength(u[1 + d..]);
      DotGroupsExtend(u, d, m);
      1 + d + m
    else 0
  }

  /** One dot-digit group in front of a longest match is a longest match. */
  lemma DotGroupsExtend(u: string, d: nat, m: nat)
    requires |u| >= 2 && u[0] == '.' && 1 <= d <= |u| - 1
    requires forall i :: 1 <= i <= d ==> IsDigit(u[i])
    requires 1 + d < |u| ==> !IsDigit(u[1 + d])
    requires DotGroupsMatch(u[1 + d..], m)
    ensures DotGroupsMatch(u, 1 + d + m)
  {
    var rest := u[1 + d..];
    forall i | 1 + d <= i < |u|
      ensures u[i] == rest[i - 1 - d]
    {
    }
  }

  /** Length of the match of `^\d+(?:\.\d+)*` in `t`, 0 when `t` does not start
      with a digit. The match is the longest dotted number `t` starts with. */
  function DottedNumberLength(t: string): (n: nat)
    ensures n <= |t|
    ensures n > 0 <==> (|t| > 0 && IsDigit(t[0]))
    ensures n > 0 ==> IsDottedNumber(t[..n])
    ensures n > 0 ==> !(n < |t| && IsDigit(t[n])) && !(n + 1 < |t| && t[n] == '.' && IsDigit(t[n + 1]))
  {
    var d := RunLength(t, IsDigit);
    if d == 0 then 0
    else
      var m := DotGroupsLength(t[d..]);
      DottedNumberJoin(t, d, m);
      d + m
  }

  /** A digit run followed by a longest run of dot-digit groups is a longest
      dotted number. */
  lemma DottedNumberJoin(t: string, d: nat, m: nat)
    requires 1 <= d <= |t| && forall i :: 0 <= i < d ==> IsDigit(t[i])
    requires d < |t| ==> !IsDigit(t[d])
    requires DotGroupsMatch(t[d..], m)
    ensures d + m <= |t| && IsDottedNumber(t[..d + m])
    ensures !(d + m < |t| && IsDigit(t[d + m])) && !(d + m + 1 < |t| && t[d + m] == '.' && IsDigit(t[d + m + 1]))
  {
    var rest := t[d..];
    forall i | d <= i < |t| ensures t[i] == rest[i - d] { }
  }

  /** The match is exactly the dotted number a text starts with, when a
      character that can continue no dotted number follows it. */
  lemma DottedNumberMaximal(t: string, number: string)
    requires IsDottedNumber(number) && number < t
    requires !IsDigit(t[|number|]) && t[|number|] != '.'
    ensures DottedNumberLength(t) == |number|
  {
    var n := DottedNumberLength(t);
    assert t[0] == number[0];
  }

  /** Length of the match of `^第[一二三四五六七八九十\d]+[章节]`, 0 for none. */
  function OrdinalMarkLength(t: string): (n: nat)
    ensures n <= |t|
    ensures n > 0 <==> OrdinalHeading(t, '章') || OrdinalHeading(t, '节')
    ensures n > 0 ==> n >= 3 && t[0] == '第' && (t[n - 1] == '章' || t[n - 1] == '节')
    ensures n > 0 ==> forall i :: 1 <= i < n - 1 ==> IsOrdinalChar(t[i])
  {
    if |t| >= 1 && t[0] == '第' then
      var k := RunLength(t[1..], IsOrdinalChar);
      if 1 <= k && 1 + k < |t| && (t[1 + k] == '章' || t[1 + k] == '节') then k + 2 else 0
    else 0
  }

  // ------------------------------------------------------------ list markers

  /** The class `[•·▪▫◦‣⁃]`. */
  predicate IsBulletChar(c: char)
  {
    c == '•' || c == '·' || c == '▪' || c == '▫' || c == '◦' || c == '‣' || c == '⁃'
  }

  predicate IsOpenParen(c: char) { c == '(' || c == '（' }
  predicate IsCloseParen(c: char) { c == ')' || c == '）' }
  predicate IsNumberSep(c: char) { c == '.' || c == '、' }
  predicate IsItemSep(c: char) { c == '.' || c == '、' || c == ')' }

  /** `u` is exactly one marker body of list pattern `k`:
      0 `[•·▪▫◦‣⁃]`, 1 `\d+[.、]`, 2 `[a-zA-Z][.、)]`,
      3 `[一二三四五六七八九十]+[.、)]`, 4 `[(（]\d+[)）]`. */
  predicate IsListBody(u: string, k: nat)
  {
    if k == 0 then |u| == 1 && IsBulletChar(u[0])
    else if k == 1 then |u| >= 2 && IsNumberSep(u[|u| - 1]) && forall i :: 0 <= i < |u| - 1 ==> IsDigit(u[i])
    else if k == 2 then |u| == 2 && IsAsciiLetter(u[0]) && IsItemSep(u[1])
    else if k == 3 then |u| >= 2 && IsItemSep(u[|u| - 1]) && forall i :: 0 <= i < |u| - 1 ==> IsCjkNumeral(u[i])
    else |u| >= 3 && IsOpenParen(u[0]) && IsCloseParen(u[|u| - 1]) && forall i :: 1 <= i < |u| - 1 ==> IsDigit(u[i])
  }

  /** What a backtracking matcher accepts for the marker body of list
      pattern `k` at the start of `t`. */
  predicate ListBodyMatches(t: string, k: nat)
  {
    if k == 0 then |t| >= 1 && IsBulletChar(t[0])
    else if k == 1 then RunThen(t, IsDigit, IsNumberSep)
    else if k == 2 then |t| >= 2 && IsAsciiLetter(t[0]) && IsItemSep(t[1])
    else if k == 3 then RunThen(t, IsCjkNumeral, IsItemSep)
    else |t| >= 1 && IsOpenParen(t[0]) && RunThen(t[1..], IsDigit, IsCloseParen)
  }

  /** No marker body starts with white space. */
  lemma ListBodyNotSpace(t: string, k: nat)
    requires ListBodyMatches(t, k)
    ensures |t| > 0 && !IsSpace(t[0])
  {
    if k == 1 || k == 3 {
      var n :| 1 <= n < |t| && (if k == 1 then IsNumberSep(t[n]) && forall i :: 0 <= i < n ==> IsDigit(t[i])
                                else IsItemSep(t[n]) && forall i :: 0 <= i < n ==> IsCjkNumeral(t[i]));
      assert IsDigit(t[0]) || IsCjkNumeral(t[0]);
    }
  }

  /** Length of the marker body of list pattern `k` at the start of `t`
      (between the leading and trailing `\s*`), 0 when it does not match. */
  function ListBodyLength(t: string, k: nat): (n: nat)
    requires k < 5
    ensures n <= |t|
    ensures n > 0 <==> ListBodyMatches(t, k)
    ensures n > 0 ==> IsListBody(t[..n], k)
  {
    if k == 0 then
      if |t| >= 1 && IsBulletChar(t[0]) then 1 else 0
    else if k == 1 then
      var d := RunLength(t, IsDigit);
      GreedyScanIsMatch(t, IsDigit, IsNumberSep);
      if 1 <= d < |t| && IsNumberSep(t[d]) then d + 1 else 0
    else if k == 2 then
      if |t| >= 2 && IsAsciiLetter(t[0]) && IsItemSep(t[1]) then 2 else 0
    else if k == 3 then
      var d := RunLength(t, IsCjkNumeral);
      GreedyScanIsMatch(t, IsCjkNumeral, IsItemSep);
      if 1 <= d < |t| && IsItemSep(t[d]) then d + 1 else 0
    else
      if |t| >= 1 && IsOpenParen(t[0]) then
        var d := RunLength(t[1..], IsDigit);
        GreedyScanIsMatch(t[1..], IsDigit, IsCloseParen);
        if 1 <= d && 1 + d < |t| && IsCloseParen(t[1 + d]) then d + 2 else 0
      else 0
  }

  /** What a backtracking matcher accepts for list pattern `k`,
      `^\s*BODY\s*`: white space, then a marker body. */
  predicate ListPatternMatches(s: string, k: nat)
  {
    exists a :: 0 <= a <= |s| && (forall i :: 0 <= i < a ==> IsSpace(s[i])) && ListBodyMatches(s[a..], k)
  }

  /** `m` is leading white space, one marker body of pattern `k`, and
      trailing white space. */
  predicate MarkerShape(m: string, k: nat)
  {
    exists a, b :: 0 <= a < b <= |m| && (forall i :: 0 <= i < a ==> IsSpace(m[i]))
                   && IsListBody(m[a..b], k) && (forall i :: b <= i < |m| ==> IsSpace(m[i]))
  }

  /** The text list pattern `k` matches at the start of `s` (`match.group(0)`):
      none exactly when the pattern does not match; otherwise white space, a
      marker body and all the white space that follows it. */
  function ListPatternMatch(s: string, k: nat): (r: Option<string>)
    requires k < 5
    ensures r.Some? <==> ListPatternMatches(s, k)
    ensures r.Some? ==> |r.value| > 0 && r.value <= s && MarkerShape(r.value, k)
    ensures r.Some? && |r.value| < |s| ==> !IsSpace(s[|r.value|])
  {
    var lead := RunLength(s, IsSpace);
    var body := ListBodyLength(s[lead..], k);
    GreedyLead(s, k, lead);
    if body == 0 then None
    else
      var trail := RunLength(s[lead + body..], IsSpace);
      MatchShape(s, k, lead, body, trail);
      Some(s[..lead + body + trail])
  }

  /** White space, one marker body and all the white space after it form a
      match of the shape `MarkerShape` that no further white space extends. */
  lemma MatchShape(s: string, k: nat, lead: nat, body: nat, trail: nat)
    requires 0 < body && lead + body <= |s| && forall i :: 0 <= i < lead ==> IsSpace(s[i])
    requires IsListBody(s[lead..][..body], k)
    requires trail == RunLength(s[lead + body..], IsSpace)
    ensures lead + body + trail <= |s|
    ensures MarkerShape(s[..lead + body + trail], k)
    ensures lead + body + trail < |s| ==> !IsSpace(s[lead + body + trail])
  {
    var m := s[..lead + body + trail];
    assert m[lead..lead + body] == s[lead..][..body];
    assert forall i :: lead + body <= i < |m| ==> m[i] == s[lead + body..][i - lead - body];
    assert lead + body + trail < |s| ==> s[lead + body + trail] == s[lead + body..][trail];
  }

  /** Leading white space never hides a marker body, so taking all of it
      decides the pattern. */
  lemma GreedyLead(s: string, k: nat, lead: nat)
    requires k < 5 && lead == RunLength(s, IsSpace)
    ensures ListPatternMatches(s, k) <==> ListBodyMatches(s[lead..], k)
  {
    if ListPatternMatches(s, k) {
      var a :| 0 <= a <= |s| && (forall i :: 0 <= i < a ==> IsSpace(s[i])) && ListBodyMatches(s[a..], k);
      ListBodyNotSpace(s[a..], k);
      assert s[a..][0] == s[a];
      assert a == lead;
    }
  }

  /** Removes the match of list pattern `k` from the start of `s`, as
      `re.sub(pattern, '', s)` does with an anchored pattern: on a match the
      text is the marker followed by what is left, which does not start with
      white space; without a match the text is kept. */
  function StripListMarker(s: string, k: nat): (r: string)
    requires k < 5
    ensures ListPatternMatch(s, k).Some? ==> s == ListPatternMatch(s, k).value + r && (r == [] || !IsSpace(r[0]))
    ensures ListPatternMatch(s, k).None? ==> r == s
  {
    match ListPatternMatch(s, k)
    case None => s
    case Some(m) =>
      assert s == m + s[|m|..];
      s[|m|..]
  }
}
