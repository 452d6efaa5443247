/** The text transformations of the Typst generator: escaping of Typst's
    markup characters, the repair of run-together text, the cleaning of
    heading and list-item text, the heading sanity check, the font-family
    table and the image-path lookup. */
module TypstText {
  import opened Text
  import opened Seqs
  import opened Patterns

  // ---------------------------------------------------------------- escaping

  /** The keys of the escape table, in table order: each is replaced by a
      backslash followed by itself, the backslash last. */
  const EscapedChars: seq<char> := ['#', '@', '$', '*', '_', '`', '[', ']', '<', '>', '\\']

  /** Table entry `k` applied to the whole text (`result.replace(char, escaped)`). */
  function EscapeStep(s: string, k: int): string
    requires 0 <= k < |EscapedChars|
  {
    ReplaceAll(s, [EscapedChars[k]], ['\\', EscapedChars[k]])
  }

  /** The text after the first `k` table entries have been applied in turn. */
  function ApplyEscapes(s: string, k: int): string
    requires 0 <= k <= |EscapedChars|
  {
    if k == 0 then s else EscapeStep(ApplyEscapes(s, k - 1), k - 1)
  }

  /** `_escape_typst_text` as written: "" stays "", otherwise every table
      entry is applied to the whole text, one after another. */
  function EscapeAsWritten(s: string): string
  {
    if s == [] then [] else ApplyEscapes(s, |EscapedChars|)
  }

  /** `_escape_typst_text`: the loop over the escape table. */
  method EscapeTypstText(text: string) returns (result: string)
    ensures result == EscapeAsWritten(text)
  {
    if text == [] {
      return [];
    }
    result := text;
    for k := 0 to |EscapedChars|
      invariant result == ApplyEscapes(text, k)
    {
      var c := EscapedChars[k];
      result := ReplaceAll(result, [c], ['\\', c]);
    }
  }

  /** Text free of every escaped character passes through unchanged. */
  lemma {:induction false} EscapePlainText(s: string, k: int)
    requires 0 <= k <= |EscapedChars|
    requires forall i :: 0 <= i < |s| ==> s[i] !in EscapedChars
    ensures ApplyEscapes(s, k) == s
  {
    if k > 0 {
      EscapePlainText(s, k - 1);
      var c := EscapedChars[k - 1];
      NotContainsByMissingChar(s, [c], 0);
      ReplaceAllAbsent(s, [c], ['\\', c]);
    }
  }

  /** Because the backslash entry comes last, it doubles the backslash that
      each earlier entry inserted: a lone markup character comes out as two
      backslashes followed by the character. */
  lemma EscapeDoublesBackslash(c: char)
    requires c in EscapedChars[..10]
    ensures EscapeAsWritten([c]) == ['\\', '\\', c]
  {
    var i :| 0 <= i < 10 && EscapedChars[i] == c;
    EscapePrefixSteps(c, i, 10);
    ReplaceCharIsMap(['\\', c], '\\', ['\\', '\\']);
    assert MapChar([c], '\\', ['\\', '\\']) == [c];
  }

  /** The first ten entries leave a lone markup character alone until its own
      entry, which puts one backslash before it. */
  lemma {:induction false} EscapePrefixSteps(c: char, i: int, k: int)
    requires 0 <= i < 10 && EscapedChars[i] == c && 0 <= k <= 10
    ensures ApplyEscapes([c], k) == if k <= i then [c] else ['\\', c]
  {
    if k > 0 {
      EscapePrefixSteps(c, i, k - 1);
      var prev := ApplyEscapes([c], k - 1);
      var d := EscapedChars[k - 1];
      ReplaceCharIsMap(prev, d, ['\\', d]);
      if k - 1 == i {
        assert MapChar([c], c, ['\\', c]) == ['\\', c] + MapChar([], c, ['\\', c]);
      } else {
        MarkupCharsDistinct(i, k - 1);
        MapCharAbsent(prev, d, ['\\', d]);
      }
    }
  }

  /** The first ten entries of the escape table are distinct markup
      characters, none of them a backslash. */
  lemma MarkupCharsDistinct(i: int, j: int)
    requires 0 <= i < 10 && 0 <= j < 10 && i != j
    ensures EscapedChars[i] != EscapedChars[j] && EscapedChars[j] != '\\'
  {
  }

  predicate IsEscaped(c: char)
  {
    c in EscapedChars
  }

  function EscapeChar(c: char): string
  {
    if IsEscaped(c) then ['\\', c] else [c]
  }

  /** Each markup character escaped exactly once, as the escape table
      evidently intends; every other character is kept. */
  function EscapeText(s: string): (r: string)
    ensures |r| >= |s|
    ensures s == [] <==> r == []
  {
    if s == [] then [] else EscapeChar(s[0]) + EscapeText(s[1..])
  }

  lemma {:induction false} EscapeTextAppend(a: string, b: string)
    ensures EscapeText(a + b) == EscapeText(a) + EscapeText(b)
  {
    if a != [] {
      assert (a + b)[1..] == a[1..] + b;
      EscapeTextAppend(a[1..], b);
    } else {
      assert a + b == b;
    }
  }

  /** What Typst's markup parser reads back: a backslash and the character
      after it stand for that character. */
  function Unescape(s: string): string
  {
    if s == [] then []
    else if s[0] == '\\' && |s| >= 2 then [s[1]] + Unescape(s[2..])
    else [s[0]] + Unescape(s[1..])
  }

  /** The escaped text reads back as the original text. */
  lemma {:induction false} EscapeRoundTrip(s: string)
    ensures Unescape(EscapeText(s)) == s
  {
    if s != [] {
      EscapeRoundTrip(s[1..]);
      var rest := EscapeText(s[1..]);
      if IsEscaped(s[0]) {
        assert (['\\', s[0]] + rest)[2..] == rest;
      } else {
        assert s[0] != '\\';
        assert ([s[0]] + rest)[1..] == rest;
      }
    }
  }

  /** "#" escaped once by the intended escape, twice by the table as written. */
  lemma EscapeCharsExample()
    ensures EscapeText("#") == "\\#"
    ensures EscapeAsWritten("#") == "\\\\#"
  {
    assert EscapedChars[..10][0] == '#';
    EscapeDoublesBackslash('#');
  }

  /** The table as written does not read back: "#" comes out as an escaped
      backslash followed by a bare "#", which Typst reads as the start of
      code. */
  lemma EscapeAsWrittenLosesText()
    ensures Unescape(EscapeAsWritten("#")) == "\\#"
    ensures Unescape(EscapeAsWritten("#")) != "#"
  {
    assert EscapedChars[..10][0] == '#';
    EscapeDoublesBackslash('#');
    assert Unescape("\\\\#") == ['\\'] + Unescape("#");
  }

  // ------------------------------------------------- run-together text

  /** `re.sub(r'\.([A-Z])', r'. \1', s)`: a space goes between a full stop and
      the capital after it. */
  function DotCapSpace(s: string): (r: string)
    ensures s != [] ==> r != [] && r[0] == s[0]
    decreases |s|
  {
    if |s| < 2 then s
    else if s[0] == '.' && IsUpper(s[1]) then ". " + [s[1]] + DotCapSpace(s[2..])
    else [s[0]] + DotCapSpace(s[1..])
  }

  predicate NoDotCapJoin(s: string)
  {
    forall i :: 0 <= i < |s| - 1 ==> !(s[i] == '.' && IsUpper(s[i + 1]))
  }

  /** After the full-stop rule no full stop is directly followed by a capital. */
  lemma {:induction false} DotCapSpaceSeparates(s: string)
    ensures NoDotCapJoin(DotCapSpace(s))
    decreases |s|
  {
    if |s| >= 2 {
      if s[0] == '.' && IsUpper(s[1]) {
        DotCapSpaceSeparates(s[2..]);
        var rest := DotCapSpace(s[2..]);
        var r := ". " + [s[1]] + rest;
        forall i | 0 <= i < |r| - 1 ensures !(r[i] == '.' && IsUpper(r[i + 1])) {
          if i >= 3 {
            assert r[i] == rest[i - 3] && r[i + 1] == rest[i - 2];
          }
        }
      } else {
        DotCapSpaceSeparates(s[1..]);
        var rest := DotCapSpace(s[1..]);
        var r := [s[0]] + rest;
        forall i | 0 <= i < |r| - 1 ensures !(r[i] == '.' && IsUpper(r[i + 1])) {
          if i >= 1 {
            assert r[i] == rest[i - 1] && r[i + 1] == rest[i];
          }
        }
      }
    }
  }

  /** Text with no full stop before a capital is left as it is. */
  lemma {:induction false} DotCapSpaceNoop(s: string)
    requires NoDotCapJoin(s)
    ensures DotCapSpace(s) == s
    decreases |s|
  {
    if |s| >= 2 {
      assert !(s[0] == '.' && IsUpper(s[1]));
      DotCapSpaceNoop(s[1..]);
    }
  }

  /** `re.sub(r'([A-Z]{3,})([A-Z]{3,})', r'\1 \2', s)`: in every maximal run of
      six or more capitals a space goes before the last three. */
  function CapsSplit(s: string): (r: string)
    ensures s != [] ==> r != [] && r[0] == s[0]
    decreases |s|
  {
    if s == [] then []
    else if IsUpper(s[0]) then
      var n := RunLength(s, IsUpper);
      if n >= 6 then s[..n - 3] + " " + s[n - 3..n] + CapsSplit(s[n..])
      else s[..n] + CapsSplit(s[n..])
    else [s[0]] + CapsSplit(s[1..])
  }

  predicate AllUpper(s: string)
  {
    forall i :: 0 <= i < |s| ==> IsUpper(s[i])
  }

  /** A word of six or more capitals is cut before its last three letters. */
  lemma CapsSplitRun(s: string)
    requires AllUpper(s) && |s| >= 6
    ensures CapsSplit(s) == s[..|s| - 3] + " " + s[|s| - 3..]
  {
    var n := RunLength(s, IsUpper);
    assert n == |s|;
    CapsSplitLongRun(s, n);
    WholeRunEnds(s, n);
  }

  lemma CapsSplitLongRun(s: string, n: int)
    requires s != [] && IsUpper(s[0]) && n == RunLength(s, IsUpper) && n >= 6
    ensures CapsSplit(s) == s[..n - 3] + " " + s[n - 3..n] + CapsSplit(s[n..])
  {
    var r := CapsSplit(s);
  }

  lemma WholeRunEnds(s: string, n: int)
    requires n == |s| >= 6
    ensures s[..n - 3] + " " + s[n - 3..n] + CapsSplit(s[n..]) == s[..|s| - 3] + " " + s[|s| - 3..]
  {
    var head := s[..n - 3] + " " + s[n - 3..n];
    assert s[n..] == [];
    assert head + [] == head;
  }

  /** The fixed word-joining repairs, in table order. */
  const CommonFixes: seq<(string, string)> := [
    ("inButterflyfishes", "in Butterflyfishes"),
    ("towardstheir", "towards their"),
    ("manyoccasions", "many occasions"),
    ("cleanlyother", "cleanly other"),
    ("specieswith", "species with"),
    ("suchfish", "such fish"),
    ("sidetheir", "side their"),
    ("linesoccasions", "lines occasions"),
    ("orWhen", "or When"),
    ("pelewensisandC", "pelewensis and C"),
    ("butorgans", "but organs"),
    ("speciesadult", "species adult"),
    ("ABERRATIONSSURVIVORS", "ABERRATIONS SURVIVORS")
  ]

  /** The text after the first `k` repairs have been applied in turn. */
  function ApplyFixes(s: string, k: int): string
    requires 0 <= k <= |CommonFixes|
  {
    if k == 0 then s
    else
      assert |CommonFixes[k - 1].0| > 0;
      ReplaceAll(ApplyFixes(s, k - 1), CommonFixes[k - 1].0, CommonFixes[k - 1].1)
  }

  /** `re.sub(r'(\d+)([A-Za-z])', r'\1 \2', s)`: a space between a digit run
      and the letter after it. A match ends at a letter, which cannot start
      the next match, so this is the same as a space after every digit that
      a letter follows. */
  function DigitLetterSpace(s: string): (r: string)
    ensures s != [] ==> r != [] && r[0] == s[0]
  {
    if s == [] then []
    else if |s| >= 2 && IsDigit(s[0]) && IsAsciiLetter(s[1]) then [s[0], ' '] + DigitLetterSpace(s[1..])
    else [s[0]] + DigitLetterSpace(s[1..])
  }

  /** `re.sub(r'([A-Za-z])(\d+)', r'\1 \2', s)`: a space between a letter and
      the digit run after it; again the same as a space after every letter
      that a digit follows. */
  function LetterDigitSpace(s: string): (r: string)
    ensures s != [] ==> r != [] && r[0] == s[0]
  {
    if s == [] then []
    else if |s| >= 2 && IsAsciiLetter(s[0]) && IsDigit(s[1]) then [s[0], ' '] + LetterDigitSpace(s[1..])
    else [s[0]] + LetterDigitSpace(s[1..])
  }

  predicate NoDigitLetterJoin(s: string)
  {
    forall i :: 0 <= i < |s| - 1 ==> !(IsDigit(s[i]) && IsAsciiLetter(s[i + 1]))
  }

  predicate NoLetterDigitJoin(s: string)
  {
    forall i :: 0 <= i < |s| - 1 ==> !(IsAsciiLetter(s[i]) && IsDigit(s[i + 1]))
  }

  /** After the digit-letter rule no digit is directly followed by a letter. */
  lemma {:induction false} DigitLetterSeparates(s: string)
    ensures NoDigitLetterJoin(DigitLetterSpace(s))
  {
    if s != [] {
      DigitLetterSeparates(s[1..]);
      var rest := DigitLetterSpace(s[1..]);
      var r := DigitLetterSpace(s);
      var k := |r| - |rest|;
      assert r[k..] == rest;
      forall i | 0 <= i < |r| - 1 ensures !(IsDigit(r[i]) && IsAsciiLetter(r[i + 1])) {
        if i >= k {
          assert r[i] == rest[i - k] && r[i + 1] == rest[i - k + 1];
        }
      }
    }
  }

  /** After the letter-digit rule no letter is directly followed by a digit. */
  lemma {:induction false} LetterDigitSeparates(s: string)
    ensures NoLetterDigitJoin(LetterDigitSpace(s))
  {
    if s != [] {
      LetterDigitSeparates(s[1..]);
      var rest := LetterDigitSpace(s[1..]);
      var r := LetterDigitSpace(s);
      var k := |r| - |rest|;
      assert r[k..] == rest;
      forall i | 0 <= i < |r| - 1 ensures !(IsAsciiLetter(r[i]) && IsDigit(r[i + 1])) {
        if i >= k {
          assert r[i] == rest[i - k] && r[i + 1] == rest[i - k + 1];
        }
      }
    }
  }

  /** The letter-digit rule introduces no digit-letter join. */
  lemma {:induction false} LetterDigitKeepsSeparation(s: string)
    requires NoDigitLetterJoin(s)
    ensures NoDigitLetterJoin(LetterDigitSpace(s))
  {
    if s != [] {
      assert NoDigitLetterJoin(s[1..]) by {
        forall i | 0 <= i < |s[1..]| - 1 ensures !(IsDigit(s[1..][i]) && IsAsciiLetter(s[1..][i + 1])) {
          assert s[1..][i] == s[i + 1] && s[1..][i + 1] == s[i + 2];
        }
      }
      LetterDigitKeepsSeparation(s[1..]);
      var rest := LetterDigitSpace(s[1..]);
      var r := LetterDigitSpace(s);
      var k := |r| - |rest|;
      assert r[k..] == rest;
      forall i | 0 <= i < |r| - 1 ensures !(IsDigit(r[i]) && IsAsciiLetter(r[i + 1])) {
        if i >= k {
          assert r[i] == rest[i - k] && r[i + 1] == rest[i - k + 1];
        } else if i == k - 1 && |s| >= 2 {
          assert r[i + 1] == rest[0] == s[1];
        }
      }
    }
  }

  /** `_separate_mixed_content`: "" stays ""; otherwise the full-stop rule,
      the capital-run rule, the fixed repairs, the two digit/letter rules,
      and a final strip. */
  function SeparateMixedContent(s: string): string
  {
    if s == [] then s
    else Strip(LetterDigitSpace(DigitLetterSpace(ApplyFixes(CapsSplit(DotCapSpace(s)), |CommonFixes|))))
  }

  /** A stripped piece of a text keeps its joins apart. */
  lemma StripKeepsSeparation(s: string)
    requires NoDigitLetterJoin(s) && NoLetterDigitJoin(s)
    ensures NoDigitLetterJoin(Strip(s)) && NoLetterDigitJoin(Strip(s))
  {
    InfixKeepsDigitLetter(s, StripOffset(s), StripEnd(s));
    InfixKeepsLetterDigit(s, StripOffset(s), StripEnd(s));
  }

  lemma InfixKeepsDigitLetter(s: string, a: int, b: int)
    requires NoDigitLetterJoin(s) && 0 <= a <= b <= |s|
    ensures NoDigitLetterJoin(s[a..b])
  {
    var r := s[a..b];
    forall i | 0 <= i < |r| - 1 ensures !(IsDigit(r[i]) && IsAsciiLetter(r[i + 1])) {
      assert r[i] == s[a + i] && r[i + 1] == s[a + i + 1];
    }
  }

  lemma InfixKeepsLetterDigit(s: string, a: int, b: int)
    requires NoLetterDigitJoin(s) && 0 <= a <= b <= |s|
    ensures NoLetterDigitJoin(s[a..b])
  {
    var r := s[a..b];
    forall i | 0 <= i < |r| - 1 ensures !(IsAsciiLetter(r[i]) && IsDigit(r[i + 1])) {
      assert r[i] == s[a + i] && r[i + 1] == s[a + i + 1];
    }
  }

  /** The repaired text never has a digit directly against an ASCII letter,
      in either order. */
  lemma SeparateMixedContentSpacesDigits(s: string)
    ensures NoDigitLetterJoin(SeparateMixedContent(s)) && NoLetterDigitJoin(SeparateMixedContent(s))
  {
    if s != [] {
      var t := ApplyFixes(CapsSplit(DotCapSpace(s)), |CommonFixes|);
      DigitLetterSeparates(t);
      LetterDigitSeparates(DigitLetterSpace(t));
      LetterDigitKeepsSeparation(DigitLetterSpace(t));
      StripKeepsSeparation(LetterDigitSpace(DigitLetterSpace(t)));
    }
  }

  /** `pat` cannot occur in `s` when a character of `s` that is not in `pat`
      lies inside every window of `s` as long as `pat`. */
  lemma NotContainsByBlocker(s: string, pat: string, k: int)
    requires 0 <= k < |s| && |s| - |pat| <= k < |pat|
    requires forall j :: 0 <= j < |pat| ==> pat[j] != s[k]
    ensures !Contains(s, pat)
  {
    forall j | 0 <= j <= |s| ensures !OccursAt(s, pat, j) {
      if j + |pat| <= |s| {
        assert s[j..j + |pat|][k - j] != pat[k - j];
      }
    }
  }

  /** `pat` cannot occur in `s` when one of its characters is absent from `s`. */
  lemma NotContainsByMissingChar(s: string, pat: string, m: int)
    requires 0 <= m < |pat| && forall i :: 0 <= i < |s| ==> s[i] != pat[m]
    ensures !Contains(s, pat)
  {
    forall j | 0 <= j <= |s| ensures !OccursAt(s, pat, j) {
      if j + |pat| <= |s| {
        assert s[j..j + |pat|][m] != pat[m];
      }
    }
  }

  lemma {:induction false} ReplaceAllAbsent(s: string, pat: string, repl: string)
    requires |pat| > 0 && !Contains(s, pat)
    ensures ReplaceAll(s, pat, repl) == s
    decreases |s|
  {
    if s != [] {
      assert !(pat <= s) by {
        if pat <= s { assert OccursAt(s, pat, 0); }
      }
      assert !Contains(s[1..], pat) by {
        if Contains(s[1..], pat) {
          var j :| 0 <= j <= |s[1..]| && OccursAt(s[1..], pat, j);
          OccursShift(s, pat, j + 1);
        }
      }
      ReplaceAllAbsent(s[1..], pat, repl);
    }
  }

  /** On text without lower-case letters the first twelve repairs, each of
      which contains one, never apply. */
  lemma {:induction false} FixesSkipCapitals(s: string, k: int)
    requires 0 <= k <= 12
    requires forall i :: 0 <= i < |s| ==> !IsLower(s[i])
    ensures ApplyFixes(s, k) == s
  {
    if k > 0 {
      FixesSkipCapitals(s, k - 1);
      var pat := CommonFixes[k - 1].0;
      assert IsLower(pat[1]);
      NotContainsByMissingChar(s, pat, 1);
      ReplaceAllAbsent(s, pat, CommonFixes[k - 1].1);
    }
  }

  /** A single word of 6 to 22 capitals comes out cut before its last three
      letters; the capital-run rule runs before the repairs, so the repair for
      "ABERRATIONSSURVIVORS" never sees that word whole. */
  lemma CapsRunSplit(s: string)
    requires AllUpper(s) && 6 <= |s| < 23
    ensures SeparateMixedContent(s) == s[..|s| - 3] + " " + s[|s| - 3..]
  {
    var split := s[..|s| - 3] + " " + s[|s| - 3..];
    assert NoDotCapJoin(s);
    DotCapSpaceNoop(s);
    CapsSplitRun(s);
    CapsSplitSurvivesFixes(s, split);
    SplitRunCharacters(s, split);
    NoDigitsUnchanged(split);
    assert !IsSpace(split[0]) && !IsSpace(split[|split| - 1]);
    StrippedIsFixed(split);
  }

  /** The repairs leave a capital run cut by a single space alone. */
  lemma CapsSplitSurvivesFixes(s: string, split: string)
    requires AllUpper(s) && 6 <= |s| < 23
    requires split == s[..|s| - 3] + " " + s[|s| - 3..]
    ensures ApplyFixes(split, |CommonFixes|) == split
  {
    SplitRunCharacters(s, split);
    FixesSkipCapitals(split, 12);
    LastFixAbsent(s, split);
    ApplyLastFix(split);
  }

  lemma SplitRunCharacters(s: string, split: string)
    requires AllUpper(s) && |s| >= 3
    requires split == s[..|s| - 3] + " " + s[|s| - 3..]
    ensures forall i :: 0 <= i < |split| ==> !IsLower(split[i]) && !IsDigit(split[i])
  {
    forall i | 0 <= i < |split| ensures !IsLower(split[i]) && !IsDigit(split[i]) {
      if i < |s| - 3 { assert split[i] == s[i]; }
      else if i > |s| - 3 { assert split[i] == s[i - 1]; }
    }
  }

  lemma ApplyLastFix(s: string)
    requires ApplyFixes(s, 12) == s && !Contains(s, CommonFixes[12].0)
    ensures ApplyFixes(s, |CommonFixes|) == s
  {
    ReplaceAllAbsent(s, CommonFixes[12].0, CommonFixes[12].1);
  }

  /** The last repair's pattern has no space, and every window of its length
      in a split run of at most 23 characters covers the space. */
  lemma LastFixAbsent(s: string, split: string)
    requires 6 <= |s| < 23
    requires split == s[..|s| - 3] + " " + s[|s| - 3..]
    ensures !Contains(split, CommonFixes[12].0)
  {
    var last := CommonFixes[12].0;
    assert |last| == 20;
    assert forall j :: 0 <= j < |last| ==> last[j] != ' ';
    NotContainsByBlocker(split, last, |s| - 3);
  }

  /** Text without digits passes both digit/letter rules unchanged. */
  lemma {:induction false} NoDigitsUnchanged(s: string)
    requires forall i :: 0 <= i < |s| ==> !IsDigit(s[i])
    ensures DigitLetterSpace(s) == s && LetterDigitSpace(s) == s
    decreases |s|
  {
    if s != [] {
      NoDigitsUnchanged(s[1..]);
    }
  }

  /** A run-together heading of twenty capitals, such as
      "ABERRATIONSSURVIVORS", is cut after its seventeenth letter, never after
      its eleventh as the repair listed for that word would have it. */
  lemma AberrationsNotRepaired(s: string)
    requires AllUpper(s) && |s| == 20
    ensures SeparateMixedContent(s) == s[..17] + " " + s[17..]
    ensures SeparateMixedContent(s) != s[..11] + " " + s[11..]
  {
    CapsRunSplit(s);
    assert SeparateMixedContent(s)[11] == s[11];
    assert (s[..11] + " " + s[11..])[11] == ' ';
  }

  // ---------------------------------------------------------- heading text

  /** The text after a leading match of length `n` and the white space after
      it are removed; unchanged when there is no match. */
  function DropLeading(t: string, n: nat): (r: string)
    requires n <= |t|
    ensures IsSuffix(r, t)
  {
    if n == 0 then t else t[n + RunLength(t[n..], IsSpace)..]
  }

  /** One cleaning step: the leading match of length `n` and the white space
      after it removed, then a strip. On stripped text it takes a stripped
      tail. */
  function CleanStep(t: string, n: nat): (r: string)
    requires n <= |t| && IsStripped(t)
    ensures IsStripped(r) && IsSuffix(r, t)
  {
    StripSuffix(t, DropLeading(t, n));
    Strip(DropLeading(t, n))
  }

  /** `re.sub(r'^(\d+(?:\.\d+)*\s*)', '', t).strip()` on stripped text. */
  function DropNumber(t: string): (r: string)
    requires IsStripped(t)
    ensures IsStripped(r) && IsSuffix(r, t)
  {
    CleanStep(t, DottedNumberLength(t))
  }

  /** `re.sub(r'^(第[一二三四五六七八九十\d]+[章节]\s*)', '', t).strip()` on
      stripped text. */
  function DropOrdinal(t: string): (r: string)
    requires IsStripped(t)
    ensures IsStripped(r) && IsSuffix(r, t)
  {
    CleanStep(t, OrdinalMarkLength(t))
  }

  /** `_clean_heading_text`: strip, drop a leading dotted number and the
      spaces after it, strip, drop a leading "第…章" or "第…节" mark and the
      spaces after it, strip. The result is stripped and a tail of the
      stripped text. */
  function CleanHeadingText(text: string): (r: string)
    ensures IsStripped(r) && IsSuffix(r, Strip(text))
  {
    var t1 := Strip(text);
    var t3 := DropNumber(t1);
    var r := DropOrdinal(t3);
    SuffixTransitive(r, t3, t1);
    r
  }

  /** A heading that starts with neither a digit nor "第" only loses its
      surrounding white space. */
  lemma CleanHeadingTextUnnumbered(text: string)
    requires Strip(text) == [] || (!IsDigit(Strip(text)[0]) && Strip(text)[0] != '第')
    ensures CleanHeadingText(text) == Strip(text)
  {
    var t := Strip(text);
    StrippedIsFixed(t);
    assert DropNumber(t) == t;
    assert DropOrdinal(t) == t;
  }

  /** A dotted section number and the spaces after it are removed. */
  lemma CleanHeadingTextNumbered(number: string, title: string)
    requires IsDottedNumber(number)
    requires title != [] && IsStripped(title)
    requires !IsDigit(title[0]) && title[0] != '.' && title[0] != '第'
    ensures CleanHeadingText(number + " " + title) == title
  {
    var t := number + " " + title;
    StrippedIsFixed(t);
    DropNumberNumbered(number, title);
    DropOrdinalUnmarked(title);
  }

  lemma DropNumberNumbered(number: string, title: string)
    requires IsDottedNumber(number)
    requires title != [] && IsStripped(title)
    ensures IsStripped(number + " " + title)
    ensures DropNumber(number + " " + title) == title
  {
    var t := number + " " + title;
    assert IsStripped(t) by {
      assert t[0] == number[0] && t[|t| - 1] == title[|title| - 1];
    }
    DropLeadingNumbered(number, title);
    assert CleanStep(t, DottedNumberLength(t)) == Strip(title);
    StrippedIsFixed(title);
  }

  lemma DropLeadingNumbered(number: string, title: string)
    requires IsDottedNumber(number) && title != [] && !IsSpace(title[0])
    ensures DropLeading(number + " " + title, DottedNumberLength(number + " " + title)) == title
  {
    NumberThenSpace(number, title);
  }

  lemma DropOrdinalUnmarked(t: string)
    requires IsStripped(t) && (t == [] || t[0] != '第')
    ensures DropOrdinal(t) == t
  {
    assert OrdinalMarkLength(t) == 0;
    StrippedIsFixed(t);
  }

  lemma NumberThenSpace(number: string, title: string)
    requires IsDottedNumber(number) && title != [] && !IsSpace(title[0])
    ensures DottedNumberLength(number + " " + title) == |number|
    ensures RunLength((number + " " + title)[|number|..], IsSpace) == 1
    ensures (number + " " + title)[|number| + 1..] == title
  {
    var t := number + " " + title;
    var n := DottedNumberLength(t);
    assert t[|number|] == ' ';
    assert t[..|number|] == number;
    DottedNumberMaximal(t, number);
    assert t[|number|..] == " " + title;
    assert (" " + title)[1..] == title;
  }


  /** Phrases that mark running text rather than a heading. */
  const NonHeadingPhrases: seq<string> := [
    "such as", "for example", "in many cases", "occasionally",
    "depending on", "when", "where", "which", "that"
  ]

  /** `_is_valid_heading`: non-blank; at most 100 characters once stripped;
      not ending in a full stop unless upper case; at most ten words; and
      none of the running-text phrases in its lower-cased form. */
  predicate IsValidHeading(text: string)
  {
    var t := Strip(text);
    && t != []
    && |t| <= 100
    && !(t[|t| - 1] == '.' && !IsUpperString(t))
    && WordCount(t) <= 10
    && forall k :: 0 <= k < |NonHeadingPhrases| ==> !Contains(Lower(t), NonHeadingPhrases[k])
  }

  // -------------------------------------------------------- list-item text

  /** List patterns k, k+1, ..., 4 removed from the start one after
      another, each from what the previous ones left. */
  function StripListMarkers(text: string, k: nat): string
    requires k <= 5
    decreases 5 - k
  {
    if k == 5 then text else StripListMarkers(StripListMarker(text, k), k + 1)
  }

  /** What the list patterns leave is a tail of the text, and the text
      itself when none of them matches. */
  lemma StripListMarkersTail(text: string, k: nat)
    requires k <= 5
    ensures IsSuffix(StripListMarkers(text, k), text)
    ensures (forall j :: k <= j < 5 ==> ListPatternMatch(text, j).None?) ==> StripListMarkers(text, k) == text
  {
    StripListMarkersSuffix(text, k);
    if forall j :: k <= j < 5 ==> ListPatternMatch(text, j).None? {
      StripListMarkersUnchanged(text, k);
    }
  }

  lemma {:induction false} StripListMarkersSuffix(text: string, k: nat)
    requires k <= 5
    ensures IsSuffix(StripListMarkers(text, k), text)
    decreases 5 - k
  {
    if k < 5 {
      var t := StripListMarker(text, k);
      StripListMarkersSuffix(t, k + 1);
      StripListMarkerSuffix(text, k);
      SuffixTransitive(StripListMarkers(t, k + 1), t, text);
    }
  }

  lemma StripListMarkerSuffix(text: string, k: nat)
    requires k < 5
    ensures IsSuffix(StripListMarker(text, k), text)
  {
  }

  lemma {:induction false} StripListMarkersUnchanged(text: string, k: nat)
    requires k <= 5
    requires forall j :: k <= j < 5 ==> ListPatternMatch(text, j).None?
    ensures StripListMarkers(text, k) == text
    decreases 5 - k
  {
    if k < 5 {
      assert StripListMarker(text, k) == text;
      StripListMarkersUnchanged(text, k + 1);
    }
  }

  /** `_clean_list_item_text`: the five marker patterns removed from the
      start one after another, then a strip. */
  function CleanListItemText(text: string): string
  {
    Strip(StripListMarkers(text, 0))
  }

  /** The cleaned item text is stripped and is a stripped tail of the text. */
  lemma CleanListItemTextMeaning(text: string)
    ensures IsStripped(CleanListItemText(text))
    ensures exists k :: 0 <= k <= |text| && CleanListItemText(text) == Strip(text[k..])
  {
    var t := StripListMarkers(text, 0);
    StripListMarkersSuffix(text, 0);
    var k := |text| - |t|;
    assert t == text[k..];
    assert CleanListItemText(text) == Strip(text[k..]);
  }

  /** Text that no marker pattern matches is only stripped. */
  lemma CleanListItemTextPlain(text: string)
    requires forall k :: 0 <= k < 5 ==> ListPatternMatch(text, k).None?
    ensures CleanListItemText(text) == Strip(text)
  {
    StripListMarkersTail(text, 0);
  }

  // ------------------------------------------------------------ font names

  /** `_create_font_mapping`: name fragments and the family each maps to, in
      table order. */
  const FontMapping: seq<(string, string)> := [
    ("times", "Times New Roman"), ("arial", "Arial"), ("helvetica", "Helvetica"),
    ("courier", "Courier New"), ("calibri", "Calibri"), ("simsun", "SimSun"),
    ("songti", "SimSun"), ("heiti", "SimHei"), ("kaiti", "KaiTi"), ("fangsong", "FangSong")
  ]

  /** The family of the first table entry whose fragment occurs in `name`. */
  function FirstFontMatch(name: string, table: seq<(string, string)>): (r: Option<string>)
    ensures r.None? <==> forall k :: 0 <= k < |table| ==> !Contains(name, table[k].0)
    ensures r.Some? ==> exists k :: 0 <= k < |table| && Contains(name, table[k].0) && r.value == table[k].1
                                    && forall j :: 0 <= j < k ==> !Contains(name, table[j].0)
  {
    if table == [] then None
    else if Contains(name, table[0].0) then
      Some(table[0].1)
    else
      var r := FirstFontMatch(name, table[1..]);
      assert forall k :: 1 <= k < |table| ==> table[k] == table[1..][k - 1];
      if r.Some? then
        var k :| 0 <= k < |table[1..]| && Contains(name, table[1..][k].0) && r.value == table[1..][k].1
                 && forall j :: 0 <= j < k ==> !Contains(name, table[1..][j].0);
        assert Contains(name, table[k + 1].0) && forall j :: 0 <= j < k + 1 ==> !Contains(name, table[j].0);
        r
      else r
  }

  /** `_map_font_family`: the family of the first fragment found in the
      lower-cased name, or the configured family. */
  function MapFontFamily(fontName: string, fallback: string): (r: string)
    ensures (forall k :: 0 <= k < |FontMapping| ==> !Contains(Lower(fontName), FontMapping[k].0)) ==> r == fallback
    ensures (exists k :: 0 <= k < |FontMapping| && Contains(Lower(fontName), FontMapping[k].0)) ==>
              exists k :: 0 <= k < |FontMapping| && r == FontMapping[k].1 && Contains(Lower(fontName), FontMapping[k].0)
                          && forall j :: 0 <= j < k ==> !Contains(Lower(fontName), FontMapping[j].0)
  {
    match FirstFontMatch(Lower(fontName), FontMapping)
    case Some(f) => f
    case None => fallback
  }

  // ------------------------------------------------------------ image paths

  /** The first path that contains the file name, "" when none does. */
  function FirstContaining(paths: seq<string>, name: string): (r: string)
    ensures (forall i :: 0 <= i < |paths| ==> !Contains(paths[i], name)) ==> r == ""
    ensures (exists i :: 0 <= i < |paths| && Contains(paths[i], name)) ==>
              exists i :: 0 <= i < |paths| && r == paths[i] && Contains(paths[i], name)
                          && forall j :: 0 <= j < i ==> !Contains(paths[j], name)
  {
    if paths == [] then ""
    else if Contains(paths[0], name) then paths[0]
    else
      var r := FirstContaining(paths[1..], name);
      assert forall i :: 1 <= i < |paths| ==> paths[i] == paths[1..][i - 1];
      if exists i :: 0 <= i < |paths| && Contains(paths[i], name) then
        var i :| 0 <= i < |paths| && Contains(paths[i], name);
        assert Contains(paths[1..][i - 1], name);
        var k :| 0 <= k < |paths[1..]| && r == paths[1..][k] && Contains(paths[1..][k], name)
                 && forall j :: 0 <= j < k ==> !Contains(paths[1..][j], name);
        assert forall j :: 0 <= j < k + 1 ==> !Contains(paths[j], name);
        r
      else r
  }

  /** `_find_image_path`: the first image path containing the image's file
      name, or "". */
  method FindImagePath(filename: string, paths: seq<string>) returns (r: string)
    ensures r == FirstContaining(paths, filename)
  {
    for i := 0 to |paths|
      invariant forall j :: 0 <= j < i ==> !Contains(paths[j], filename)
      invariant FirstContaining(paths, filename) == FirstContaining(paths[i..], filename)
    {
      if Contains(paths[i], filename) {
        return paths[i];
      }
      assert paths[i..][1..] == paths[i + 1..];
    }
    return "";
  }
}
