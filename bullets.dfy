/** `formatAsBullets`: the provider's reply text becomes one bullet per non-blank
    line, each line stripped of a leading list marker by four anchored regular
    expressions applied once each, in a fixed order. */
module Bullets {
  import opened JsText
  import opened Seqs

  /** The single bullet returned for blank text. */
  const NoResponseReceived: string := "No response received"

  /** The character class of the first rule, code point for code point as the
      source file writes it: hyphen, asterisk, and the characters that a UTF-8
      encoding of several bullet glyphs shows when read as Windows-1252. */
  const BulletGlyphs: set<char> := {
    '-', '*', '\U{00E2}', '\U{20AC}', '\U{00A2}', '\U{017E}', '\U{00A4}', '\U{2013}',
    '\U{00AA}', '\U{00AB}', '\U{2014}', '\U{00A6}', '\U{00A3}', '\U{0192}'
  }

  /** `\d` without the `u` flag. */
  predicate IsDigit(c: char) {
    '0' <= c <= '9'
  }

  predicate AllDigits(s: string) {
    forall i :: 0 <= i < |s| ==> IsDigit(s[i])
  }

  /** `[a-zA-Z]`. */
  predicate IsAsciiLetter(c: char) {
    'a' <= c <= 'z' || 'A' <= c <= 'Z'
  }

  // The languages of the four patterns, read without their `^` anchor: which
  // strings the pattern matches as a whole.

  /** `[glyphs]\s*` */
  predicate GlyphMarker(p: string) {
    |p| >= 1 && p[0] in BulletGlyphs && AllSpace(p[1..])
  }

  /** `\d+\.\s*`: a run of digits that is not empty, the dot that ends it, white space. */
  predicate NumberMarker(p: string) {
    var n := DigitRun(p);
    1 <= n < |p| && p[n] == '.' && AllSpace(p[n + 1..])
  }

  /** `[a-zA-Z]\.\s*` */
  predicate LetterMarker(p: string) {
    |p| >= 2 && IsAsciiLetter(p[0]) && p[1] == '.' && AllSpace(p[2..])
  }

  /** `\*\s+` */
  predicate StarMarker(p: string) {
    |p| >= 2 && p[0] == '*' && AllSpace(p[1..])
  }

  /** What `s.replace(/^P/, "")` does for a pattern `P` whose language is `m`:
      `r` is `s` without its longest prefix in the language, or `s` itself when
      no non-empty prefix is in it. For these four patterns the greedy
      quantifiers make the first match JavaScript finds the longest one. */
  ghost predicate RemovesLongestMatch(m: string -> bool, s: string, r: string) {
    && IsSuffix(r, s)
    && (r != s ==> m(s[..|s| - |r|]))
    && (forall k :: |s| - |r| < k <= |s| ==> !m(s[..k]))
  }

  /** `.replace(/^[glyphs]\s*\/, "")` */
  function StripGlyph(s: string): string {
    if |s| > 0 && s[0] in BulletGlyphs then TrimStart(s[1..]) else s
  }

  /** The length of the run of digits that starts `s`. */
  function DigitRun(s: string): (n: nat)
    ensures n <= |s|
  {
    if |s| > 0 && IsDigit(s[0]) then 1 + DigitRun(s[1..]) else 0
  }

  /** `DigitRun` measures the longest run of digits at the start of `s`: every
      character of the run is a digit and the one after it, if any, is not. */
  lemma {:induction false} DigitRunSpec(s: string)
    ensures AllDigits(s[..DigitRun(s)])
    ensures DigitRun(s) < |s| ==> !IsDigit(s[DigitRun(s)])
  {
    if |s| > 0 && IsDigit(s[0]) {
      DigitRunSpec(s[1..]);
      var n := DigitRun(s);
      assert s[..n] == [s[0]] + s[1..][..n - 1];
    }
  }

  /** `.replace(/^\d+\.\s*\/, "")` */
  function StripNumber(s: string): string {
    var n := DigitRun(s);
    if 1 <= n < |s| && s[n] == '.' then TrimStart(s[n + 1..]) else s
  }

  /** `.replace(/^[a-zA-Z]\.\s*\/, "")` */
  function StripLetter(s: string): string {
    if |s| >= 2 && IsAsciiLetter(s[0]) && s[1] == '.' then TrimStart(s[2..]) else s
  }

  /** `.replace(/^\*\s+/, "")` */
  function StripStar(s: string): string {
    if |s| >= 2 && s[0] == '*' && IsSpace(s[1]) then TrimStart(s[1..]) else s
  }

  /** The per-line chain of lines 21-26: the four rules in order, then `trim`. */
  function StripMarkers(line: string): string {
    Trim(StripStar(StripLetter(StripNumber(StripGlyph(line)))))
  }

  predicate NonEmpty(s: string) {
    |s| > 0
  }

  /** Lines 16-19: split on `\r?\n`, trim every line, keep the non-empty ones. */
  function Lines(text: string): seq<string> {
    Filter(NonEmpty, Map(Trim, SplitLines(text)))
  }

  /** `formatAsBullets(text)`. Its first test, `!text`, only adds the empty
      string, which the `trim` test already covers. */
  function FormatAsBullets(text: string): seq<string> {
    if Trim(text) == [] then [NoResponseReceived] else Map(StripMarkers, Lines(text))
  }

  // ---------------------------------------------------------------------------
  // The four rules

  /** Removing a head of length `L` and then the white space after it. */
  lemma HeadThenSpace(s: string, L: nat)
    requires L <= |s|
    ensures var r := TrimStart(s[L..]);
      && IsSuffix(r, s) && |s| - |r| >= L
      && AllSpace(s[L..|s| - |r|])
      && (forall k :: |s| - |r| < k <= |s| ==> !AllSpace(s[L..k]))
  {
    TrimStartSpec(s[L..]);
    var r := TrimStart(s[L..]);
    var k0 := |s| - |r|;
    assert s[L..][|s[L..]| - |r|..] == s[k0..];
    assert s[L..k0] == s[L..][..|s[L..]| - |r|];
    forall k | k0 < k <= |s| ensures !AllSpace(s[L..k]) {
      assert s[L..k][k0 - L] == r[0];
    }
  }

  lemma StripGlyphSpec(s: string)
    ensures RemovesLongestMatch(GlyphMarker, s, StripGlyph(s))
  {
    var r := StripGlyph(s);
    if |s| > 0 && s[0] in BulletGlyphs {
      HeadThenSpace(s, 1);
      var k0 := |s| - |r|;
      assert s[..k0][1..] == s[1..k0];
      forall k | k0 < k <= |s| ensures !GlyphMarker(s[..k]) {
        assert s[..k][1..] == s[1..k];
      }
    } else {
      forall k | 0 < k <= |s| ensures !GlyphMarker(s[..k]) {
        assert s[..k][0] == s[0];
      }
    }
  }

  /** A prefix that ends after the run of digits starting `s` starts with that
      same run, and only such a prefix has a run shorter than itself. */
  lemma {:induction false} DigitRunOfPrefix(s: string, k: nat)
    requires k <= |s|
    ensures DigitRun(s) < k ==> DigitRun(s[..k]) == DigitRun(s)
    ensures DigitRun(s[..k]) < k ==> DigitRun(s[..k]) == DigitRun(s)
  {
    if k > 0 {
      assert s[..k][0] == s[0];
      if IsDigit(s[0]) {
        DigitRunOfPrefix(s[1..], k - 1);
        assert s[..k][1..] == s[1..][..k - 1];
      }
    }
  }

  /** A number marker at the start of `s` ends at the dot after the run of digits. */
  lemma NumberMarkerAt(s: string, k: nat)
    requires k <= |s| && NumberMarker(s[..k])
    ensures var n := DigitRun(s); 1 <= n < k && s[n] == '.' && AllSpace(s[n + 1..k])
  {
    var n := DigitRun(s);
    DigitRunOfPrefix(s, k);
    assert s[..k][n + 1..] == s[n + 1..k];
  }

  lemma StripNumberSpec(s: string)
    ensures RemovesLongestMatch(NumberMarker, s, StripNumber(s))
  {
    var n := DigitRun(s);
    var r := StripNumber(s);
    if 1 <= n < |s| && s[n] == '.' {
      assert r == TrimStart(s[n + 1..]);
      assert IsSuffix(r, s) && NumberMarker(s[..|s| - |r|]) by {
        NumberRuleMatches(s, n);
      }
      assert forall k :: |s| - |r| < k <= |s| ==> !NumberMarker(s[..k]) by {
        NumberRuleIsLongest(s, n);
      }
    } else {
      assert r == s;
      assert forall k :: 0 < k <= |s| ==> !NumberMarker(s[..k]) by {
        NumberRuleMisses(s, n);
      }
    }
  }

  /** When the number rule does not fire, no prefix is a number marker. */
  lemma NumberRuleMisses(s: string, n: nat)
    requires n == DigitRun(s)
    requires !(1 <= n < |s| && s[n] == '.')
    ensures forall k :: 0 < k <= |s| ==> !NumberMarker(s[..k])
  {
    forall k | 0 < k <= |s| ensures !NumberMarker(s[..k]) {
      if NumberMarker(s[..k]) {
        NumberMarkerAt(s, k);
      }
    }
  }

  /** When the number rule fires, what it removes is a number marker... */
  lemma NumberRuleMatches(s: string, n: nat)
    requires n == DigitRun(s)
    requires 1 <= n < |s| && s[n] == '.'
    ensures var r := TrimStart(s[n + 1..]); IsSuffix(r, s) && NumberMarker(s[..|s| - |r|])
  {
    var r := TrimStart(s[n + 1..]);
    HeadThenSpace(s, n + 1);
    var k0 := |s| - |r|;
    DigitRunOfPrefix(s, k0);
    assert s[..k0][n + 1..] == s[n + 1..k0];
  }

  /** ...and no longer prefix is one. */
  lemma NumberRuleIsLongest(s: string, n: nat)
    requires n == DigitRun(s)
    requires 1 <= n < |s| && s[n] == '.'
    ensures var r := TrimStart(s[n + 1..]);
      forall k :: |s| - |r| < k <= |s| ==> !NumberMarker(s[..k])
  {
    var r := TrimStart(s[n + 1..]);
    HeadThenSpace(s, n + 1);
    forall k | |s| - |r| < k <= |s| ensures !NumberMarker(s[..k]) {
      if NumberMarker(s[..k]) {
        NumberMarkerAt(s, k);
      }
    }
  }

  lemma StripLetterSpec(s: string)
    ensures RemovesLongestMatch(LetterMarker, s, StripLetter(s))
  {
    var r := StripLetter(s);
    if |s| >= 2 && IsAsciiLetter(s[0]) && s[1] == '.' {
      HeadThenSpace(s, 2);
      var k0 := |s| - |r|;
      assert s[..k0][2..] == s[2..k0];
      forall k | k0 < k <= |s| ensures !LetterMarker(s[..k]) {
        assert s[..k][2..] == s[2..k];
      }
    } else {
      forall k | 0 < k <= |s| ensures !LetterMarker(s[..k]) {
        if |s[..k]| >= 2 {
          assert s[..k][0] == s[0] && s[..k][1] == s[1];
        }
      }
    }
  }

  lemma StripStarSpec(s: string)
    ensures RemovesLongestMatch(StarMarker, s, StripStar(s))
  {
    var r := StripStar(s);
    if |s| >= 2 && s[0] == '*' && IsSpace(s[1]) {
      HeadThenSpace(s, 1);
      TrimStartSpec(s[1..]);
      var k0 := |s| - |r|;
      assert s[1..][0] == s[1];
      assert k0 >= 2;
      assert s[..k0][1..] == s[1..k0];
      forall k | k0 < k <= |s| ensures !StarMarker(s[..k]) {
        assert s[..k][1..] == s[1..k];
      }
    } else {
      forall k | 0 < k <= |s| ensures !StarMarker(s[..k]) {
        if |s[..k]| >= 2 {
          assert s[..k][0] == s[0] && s[..k][1..][0] == s[1];
        }
      }
    }
  }

  /** A trimmed line loses at most a prefix: what remains of it is a suffix of it
      with no white space at either end. */
  lemma StripMarkersKeepsSuffix(line: string)
    requires IsTrimmed(line)
    ensures IsSuffix(StripMarkers(line), line)
    ensures IsTrimmed(StripMarkers(line))
  {
    var a := StripGlyph(line);
    var b := StripNumber(a);
    var c := StripLetter(b);
    var d := StripStar(c);
    StripGlyphSpec(line);
    StripNumberSpec(a);
    StripLetterSpec(b);
    StripStarSpec(c);
    SuffixTransitive(b, a, line);
    SuffixTransitive(c, b, line);
    SuffixTransitive(d, c, line);
    TrimOfSuffix(d, line);
    TrimSpec(d);
  }

  // ---------------------------------------------------------------------------
  // Lines

  /** The lines may as well be split on "\n" alone, since `trim` removes the
      carriage return a "\r\n" leaves behind. */
  lemma LinesByNewline(text: string)
    ensures Lines(text) == Filter(NonEmpty, Map(Trim, SplitOn(text, '\n')))
  {
    TrimmedLinesAgree(text);
    MapIndex(Trim, SplitLines(text));
    MapIndex(Trim, SplitOn(text, '\n'));
    assert Map(Trim, SplitLines(text)) == Map(Trim, SplitOn(text, '\n'));
  }

  /** The lines of two texts joined by a line break are the lines of the first
      followed by the lines of the second. */
  lemma LinesConcat(a: string, b: string)
    ensures Lines(a + ['\n'] + b) == Lines(a) + Lines(b)
  {
    LinesByNewline(a + ['\n'] + b);
    LinesByNewline(a);
    LinesByNewline(b);
    SplitConcat(a, b, '\n');
    MapConcat(Trim, SplitOn(a, '\n'), SplitOn(b, '\n'));
    FilterConcat(NonEmpty, Map(Trim, SplitOn(a, '\n')), Map(Trim, SplitOn(b, '\n')));
  }

  /** A text without a line break is one line: blank, or its own trim. */
  lemma LinesOfOneLine(a: string)
    requires '\n' !in a
    ensures Lines(a) == if AllSpace(a) then [] else [Trim(a)]
  {
    LinesByNewline(a);
    SplitWithoutSeparator(a, '\n');
    assert Map(Trim, [a]) == [Trim(a)];
    TrimSpec(a);
    FilterOne(NonEmpty, Trim(a));
  }

  /** Every line kept is non-empty, has no white space at either end and holds no line break. */
  lemma LinesAreTrimmed(text: string)
    ensures forall i :: 0 <= i < |Lines(text)| ==>
      |Lines(text)[i]| > 0 && IsTrimmed(Lines(text)[i]) && '\n' !in Lines(text)[i]
  {
    var pieces := SplitLines(text);
    forall i | 0 <= i < |Lines(text)|
      ensures |Lines(text)[i]| > 0 && IsTrimmed(Lines(text)[i]) && '\n' !in Lines(text)[i]
    {
      var x := Lines(text)[i];
      FilterMembers(NonEmpty, Map(Trim, pieces));
      assert x in Map(Trim, pieces);
      MapIndex(Trim, pieces);
      var j :| 0 <= j < |pieces| && Map(Trim, pieces)[j] == x;
      SplitLinesPieces(text);
      TrimSpec(pieces[j]);
      TrimKeepsOut(pieces[j], '\n');
    }
  }

  /** Text that is not blank has at least one line, and as many as there are
      source lines that are not blank. */
  lemma LinesCount(text: string)
    ensures |Lines(text)| == Count(NonEmpty, Map(Trim, SplitLines(text)))
    ensures !AllSpace(text) ==> |Lines(text)| >= 1
  {
    FilterLength(NonEmpty, Map(Trim, SplitLines(text)));
    if |Lines(text)| == 0 {
      LinesByNewline(text);
      var pieces := SplitOn(text, '\n');
      var trimmed := Map(Trim, pieces);
      assert Filter(NonEmpty, trimmed) == [];
      FilterMembers(NonEmpty, trimmed);
      MapIndex(Trim, pieces);
      forall i | 0 <= i < |pieces| ensures AllSpace(pieces[i]) {
        assert trimmed[i] in trimmed;
        assert !NonEmpty(trimmed[i]);
        assert Trim(pieces[i]) == [];
        TrimSpec(pieces[i]);
      }
      JoinOfSpaceIsSpace(pieces, '\n');
      JoinSplit(text, '\n');
    }
  }

  // ---------------------------------------------------------------------------
  // formatAsBullets

  /** Line 15: blank text gives the single sentinel bullet. */
  lemma FormatBlank(text: string)
    requires AllSpace(text)
    ensures FormatAsBullets(text) == [NoResponseReceived]
  {
    TrimSpec(text);
  }

  /** Lines 16-27: other text gives one bullet per non-blank line, at least one,
      the i-th coming from the i-th such line, and each bullet is what is left of
      its trimmed line after a prefix is removed, with no white space at either end. */
  lemma FormatLines(text: string)
    requires !AllSpace(text)
    ensures |FormatAsBullets(text)| == |Lines(text)| == Count(NonEmpty, Map(Trim, SplitLines(text)))
    ensures |FormatAsBullets(text)| >= 1
    ensures forall i :: 0 <= i < |FormatAsBullets(text)| ==>
      && FormatAsBullets(text)[i] == StripMarkers(Lines(text)[i])
      && IsSuffix(FormatAsBullets(text)[i], Lines(text)[i])
      && IsTrimmed(FormatAsBullets(text)[i])
      && '\n' !in FormatAsBullets(text)[i]
  {
    TrimSpec(text);
    LinesCount(text);
    LinesAreTrimmed(text);
    MapIndex(StripMarkers, Lines(text));
    forall i | 0 <= i < |Lines(text)|
      ensures IsSuffix(StripMarkers(Lines(text)[i]), Lines(text)[i]) && IsTrimmed(StripMarkers(Lines(text)[i]))
    {
      StripMarkersKeepsSuffix(Lines(text)[i]);
    }
  }

  /** Bullets of two non-blank texts joined by a line break are the bullets of
      the first followed by those of the second. */
  lemma FormatConcat(a: string, b: string)
    requires !AllSpace(a) && !AllSpace(b)
    ensures FormatAsBullets(a + ['\n'] + b) == FormatAsBullets(a) + FormatAsBullets(b)
  {
    var s := a + ['\n'] + b;
    assert !AllSpace(s) by {
      var k :| 0 <= k < |a| && !IsSpace(a[k]);
      assert s[k] == a[k];
    }
    TrimSpec(s);
    TrimSpec(a);
    TrimSpec(b);
    LinesConcat(a, b);
    MapConcat(StripMarkers, Lines(a), Lines(b));
  }

  /** A non-blank text without a line break is a single bullet. */
  lemma FormatOneLine(a: string)
    requires '\n' !in a && !AllSpace(a)
    ensures FormatAsBullets(a) == [StripMarkers(Trim(a))]
  {
    TrimSpec(a);
    LinesOfOneLine(a);
  }

  /** Lines that are non-empty, trimmed and free of line breaks, joined by line
      breaks, are read back as those same lines. */
  lemma LinesOfJoined(bs: seq<string>)
    requires |bs| >= 1
    requires forall i :: 0 <= i < |bs| ==> bs[i] != [] && IsTrimmed(bs[i]) && '\n' !in bs[i]
    ensures Lines(JoinOn(bs, '\n')) == bs
  {
    var t := JoinOn(bs, '\n');
    assert SplitOn(t, '\n') == bs by {
      SplitJoin(bs, '\n');
    }
    assert Map(Trim, bs) == bs by {
      TrimmedLines(bs);
    }
    assert Filter(NonEmpty, bs) == bs by {
      FilterKeepsAll(NonEmpty, bs);
    }
    LinesByNewline(t);
  }

  /** Trimmed lines are their own trims. */
  lemma TrimmedLines(bs: seq<string>)
    requires forall i :: 0 <= i < |bs| ==> IsTrimmed(bs[i])
    ensures Map(Trim, bs) == bs
  {
    forall i | 0 <= i < |bs| ensures Trim(bs[i]) == bs[i] {
      TrimmedIsFixpoint(bs[i]);
    }
    MapFixpoint(Trim, bs);
  }

  /** Text whose lines carry no marker at their start is formatted into its lines. */
  lemma FormatOfUnmarkedLines(text: string, bs: seq<string>)
    requires Trim(text) != [] && Lines(text) == bs && Map(StripMarkers, bs) == bs
    ensures FormatAsBullets(text) == bs
  {
    FormatNotBlank(text);
  }

  /** Text that does not trim to nothing gives the bullets of its lines. */
  lemma FormatNotBlank(text: string)
    requires Trim(text) != []
    ensures FormatAsBullets(text) == Map(StripMarkers, Lines(text))
  {
  }

  /** Joining lines of which the first is non-empty and trimmed gives text that is not blank. */
  lemma JoinedNotBlank(bs: seq<string>)
    requires |bs| >= 1 && bs[0] != [] && IsTrimmed(bs[0])
    ensures Trim(JoinOn(bs, '\n')) != []
  {
    var t := JoinOn(bs, '\n');
    assert t[0] == bs[0][0];
    TrimSpec(t);
  }

  /** Every bullet list has at least one bullet, and no bullet has white space
      at either end or holds a line break. */
  lemma BulletsAreCleanLines(x: string)
    ensures |FormatAsBullets(x)| >= 1
    ensures forall i :: 0 <= i < |FormatAsBullets(x)| ==>
      IsTrimmed(FormatAsBullets(x)[i]) && '\n' !in FormatAsBullets(x)[i]
  {
    if AllSpace(x) {
      FormatBlank(x);
      assert IsTrimmed(NoResponseReceived) && '\n' !in NoResponseReceived;
    } else {
      FormatLines(x);
    }
  }

  /** Formatting the bullets once more, one per line, gives them back whenever
      no bullet is empty and stripping the markers from a bullet again leaves it
      as it is. */
  lemma FormatIdempotent(x: string)
    requires forall i :: 0 <= i < |FormatAsBullets(x)| ==>
      FormatAsBullets(x)[i] != [] && StripMarkers(FormatAsBullets(x)[i]) == FormatAsBullets(x)[i]
    ensures FormatAsBullets(JoinOn(FormatAsBullets(x), '\n')) == FormatAsBullets(x)
  {
    var bs := FormatAsBullets(x);
    BulletsAreCleanLines(x);
    LinesOfJoined(bs);
    JoinedNotBlank(bs);
    assert Map(StripMarkers, bs) == bs by {
      MapFixpoint(StripMarkers, bs);
    }
    FormatOfUnmarkedLines(JoinOn(bs, '\n'), bs);
  }

  // ---------------------------------------------------------------------------
  // Worked inputs

  /** A trimmed single line is the one bullet its markers leave. */
  lemma OneTrimmedLine(s: string)
    requires |s| >= 1 && IsTrimmed(s) && '\n' !in s
    ensures FormatAsBullets(s) == [StripMarkers(s)]
  {
    TrimmedIsFixpoint(s);
    FormatOneLine(s);
  }

  /** Two trimmed lines joined by a line break are the two bullets their markers leave. */
  lemma TwoTrimmedLines(text: string, s: string, t: string)
    requires |s| >= 1 && IsTrimmed(s) && '\n' !in s
    requires |t| >= 1 && IsTrimmed(t) && '\n' !in t
    requires text == s + ['\n'] + t
    ensures FormatAsBullets(text) == [StripMarkers(s), StripMarkers(t)]
  {
    assert !IsSpace(s[0]) && !IsSpace(t[0]);
    FormatConcat(s, t);
    OneTrimmedLine(s);
    OneTrimmedLine(t);
  }

  /** A non-empty trimmed line without a line break that starts with no glyph of
      the first rule, no digit, and no letter followed by a dot. */
  predicate PlainLine(w: string) {
    && |w| >= 1 && IsTrimmed(w) && '\n' !in w
    && w[0] !in BulletGlyphs && !IsDigit(w[0])
    && !(|w| >= 2 && IsAsciiLetter(w[0]) && w[1] == '.')
  }

  /** A trimmed line that starts with none of the four markers is its own bullet:
      no glyph of the first rule (the star among them), no run of digits followed
      by a dot, and no letter followed by a dot. A line such as "2024 harvest",
      whose digits are not followed by a dot, is kept whole. */
  lemma UnmarkedLineKept(w: string)
    requires IsTrimmed(w)
    requires |w| == 0 || w[0] !in BulletGlyphs
    requires !(1 <= DigitRun(w) < |w| && w[DigitRun(w)] == '.')
    requires !(|w| >= 2 && IsAsciiLetter(w[0]) && w[1] == '.')
    ensures StripMarkers(w) == w
  {
    assert StripGlyph(w) == w;
    assert StripNumber(w) == w;
    assert StripLetter(w) == w;
    assert StripStar(w) == w;
    TrimmedIsFixpoint(w);
  }

  /** A plain line is its own bullet. */
  lemma PlainLineKept(w: string)
    requires PlainLine(w)
    ensures StripMarkers(w) == w
  {
    assert DigitRun(w) == 0;
    UnmarkedLineKept(w);
  }

  /** The letter and star rules and the final `trim` leave such a line alone. */
  lemma RestUnmarked(w: string)
    requires PlainLine(w)
    ensures Trim(StripStar(StripLetter(w))) == w
  {
    assert StripLetter(w) == w;
    assert StripStar(w) == w;
    TrimmedIsFixpoint(w);
  }

  /** The white space after a marker goes, and a trimmed rest is kept whole. */
  lemma SpaceThenTrimmed(w: string)
    requires IsTrimmed(w) && |w| >= 1
    ensures TrimStart([' '] + w) == w
  {
    var s := [' '] + w;
    assert s[1..] == w;
    assert !IsSpace(w[0]);
  }

  /** "d. w", for a digit d and a trimmed w that starts with no marker, leaves w. */
  lemma NumberedLine(s: string, d: char, w: string)
    requires IsDigit(d) && PlainLine(w)
    requires s == [d, '.', ' '] + w
    ensures StripMarkers(s) == w
  {
    assert StripGlyph(s) == s by {
      assert s[0] == d;
    }
    NumberStripped(s, d, w);
    RestUnmarked(w);
  }

  lemma NumberedLineTrimmed(s: string, d: char, w: string)
    requires IsDigit(d) && IsTrimmed(w) && |w| >= 1 && '\n' !in w
    requires s == [d, '.', ' '] + w
    ensures IsTrimmed(s) && '\n' !in s
  {
    MarkerThenTrimmed([d, '.', ' '], w);
  }

  lemma GlyphLineTrimmed(s: string, g: char, w: string)
    requires g in BulletGlyphs && IsTrimmed(w) && |w| >= 1 && '\n' !in w
    requires s == [g, ' '] + w
    ensures IsTrimmed(s) && '\n' !in s
  {
    MarkerThenTrimmed([g, ' '], w);
  }

  /** A marker that starts with no white space and holds no line break, followed
      by a trimmed one-line rest, is a trimmed line. */
  lemma MarkerThenTrimmed(p: string, w: string)
    requires |p| >= 1 && !IsSpace(p[0]) && '\n' !in p
    requires IsTrimmed(w) && |w| >= 1 && '\n' !in w
    ensures IsTrimmed(p + w) && '\n' !in p + w
  {
    var s := p + w;
    assert s[0] == p[0];
    assert s[|s| - 1] == w[|w| - 1];
  }

  /** The number rule takes "d. " off "d. w" when w is trimmed and does not start with a digit. */
  lemma NumberStripped(s: string, d: char, w: string)
    requires IsDigit(d) && IsTrimmed(w) && |w| >= 1 && !IsDigit(w[0])
    requires s == [d, '.', ' '] + w
    ensures StripNumber(s) == w
  {
    assert DigitRun(s) == 1 by {
      assert s[1..][0] == '.';
    }
    assert s[2..] == [' '] + w;
    SpaceThenTrimmed(w);
  }

  /** "g w", for a glyph g of the first rule and a trimmed w that starts with no
      marker, leaves w. */
  lemma GlyphLine(s: string, g: char, w: string)
    requires g in BulletGlyphs && PlainLine(w)
    requires s == [g, ' '] + w
    ensures StripMarkers(s) == w
  {
    assert StripGlyph(s) == w by {
      assert s[1..] == [' '] + w;
      SpaceThenTrimmed(w);
    }
    assert StripNumber(w) == w by {
      assert DigitRun(w) == 0;
    }
    RestUnmarked(w);
  }

  /** Two numbered lines "d1. w1" and "d2. w2" give the bullets w1 and w2. */
  lemma TwoNumberedLines(text: string, d1: char, w1: string, d2: char, w2: string)
    requires IsDigit(d1) && PlainLine(w1)
    requires IsDigit(d2) && PlainLine(w2)
    requires text == ([d1, '.', ' '] + w1) + ['\n'] + ([d2, '.', ' '] + w2)
    ensures FormatAsBullets(text) == [w1, w2]
  {
    var s1, s2 := [d1, '.', ' '] + w1, [d2, '.', ' '] + w2;
    NumberedLine(s1, d1, w1);
    NumberedLine(s2, d2, w2);
    NumberedLineTrimmed(s1, d1, w1);
    NumberedLineTrimmed(s2, d2, w2);
    TwoTrimmedLines(text, s1, s2);
  }

  /** Two glyph lines "g1 w1" and "g2 w2" give the bullets w1 and w2. */
  lemma TwoGlyphLines(text: string, g1: char, w1: string, g2: char, w2: string)
    requires g1 in BulletGlyphs && PlainLine(w1)
    requires g2 in BulletGlyphs && PlainLine(w2)
    requires text == ([g1, ' '] + w1) + ['\n'] + ([g2, ' '] + w2)
    ensures FormatAsBullets(text) == [w1, w2]
  {
    var s1, s2 := [g1, ' '] + w1, [g2, ' '] + w2;
    GlyphLine(s1, g1, w1);
    GlyphLine(s2, g2, w2);
    GlyphLineTrimmed(s1, g1, w1);
    GlyphLineTrimmed(s2, g2, w2);
    TwoTrimmedLines(text, s1, s2);
  }

  /** Numbered lines lose their numbers. */
  lemma ExampleNumbered(text: string)
    requires text == "1. Do X\n2. Do Y"
    ensures FormatAsBullets(text) == ["Do X", "Do Y"]
  {
    var w1, w2 := "Do X", "Do Y";
    PlainWord(w1);
    PlainWord(w2);
    assert text == (['1', '.', ' '] + w1) + ['\n'] + (['2', '.', ' '] + w2);
    TwoNumberedLines(text, '1', w1, '2', w2);
  }

  /** Dash and star bullets lose their glyphs. */
  lemma ExampleDashAndStar(text: string)
    requires text == "- Item one\n* Item two"
    ensures FormatAsBullets(text) == ["Item one", "Item two"]
  {
    var w1, w2 := "Item one", "Item two";
    PlainWord(w1);
    PlainWord(w2);
    assert text == (['-', ' '] + w1) + ['\n'] + (['*', ' '] + w2);
    TwoGlyphLines(text, '-', w1, '*', w2);
  }

  /** The non-empty filter runs before the markers are stripped, so a line that is
      nothing but a marker still yields a bullet, the empty one. */
  lemma ExampleDashOnly(text: string)
    requires text == "-"
    ensures FormatAsBullets(text) == [""]
  {
    assert StripGlyph(text) == "";
    OneTrimmedLine(text);
  }

  /** A number with its dot and nothing after it is also an empty bullet. */
  lemma ExampleNumberOnly(text: string)
    requires text == "3.\nok"
    ensures FormatAsBullets(text) == ["", "ok"]
  {
    var a := "3.";
    var b := "ok";
    assert text == a + ['\n'] + b;
    NumberOnlyStripped(a);
    PlainWord(b);
    PlainLineKept(b);
    TwoTrimmedLines(text, a, b);
  }

  /** The words of the worked inputs start with no marker. */
  lemma PlainWord(w: string)
    requires w in {"Do X", "Do Y", "Item one", "Item two", "ok"}
    ensures PlainLine(w)
  {
  }

  lemma NumberOnlyStripped(a: string)
    requires a == "3."
    ensures IsTrimmed(a) && StripMarkers(a) == ""
  {
    assert a[1..] == ".";
    assert DigitRun(".") == 0;
    assert DigitRun(a) == 1;
    assert StripGlyph(a) == a;
    assert StripNumber(a) == "";
  }

  /** U+2022 BULLET is not one of the characters the first rule's class holds as
      written, so a line that starts with it keeps it. */
  lemma ExampleBulletGlyphKept(text: string)
    requires text == "\U{2022} Item three"
    ensures FormatAsBullets(text) == ["\U{2022} Item three"]
  {
    PlainLineKept(text);
    OneTrimmedLine(text);
  }

  /** Digits not followed by a dot are no marker: "2024 harvest" is kept whole. */
  lemma ExampleYearKept(text: string)
    requires text == "2024 harvest"
    ensures FormatAsBullets(text) == ["2024 harvest"]
  {
    YearUnmarked(text);
    YearDigits(text);
    UnmarkedLineKept(text);
    OneTrimmedLine(text);
  }

  lemma YearUnmarked(w: string)
    requires w == "2024 harvest"
    ensures IsTrimmed(w) && '\n' !in w && |w| >= 1 && w[0] !in BulletGlyphs
    ensures !(|w| >= 2 && IsAsciiLetter(w[0]) && w[1] == '.')
  {
  }

  lemma YearDigits(w: string)
    requires w == "2024 harvest"
    ensures DigitRun(w) == 4 && w[4] == ' '
  {
    assert forall i :: 0 <= i < 4 ==> IsDigit(w[i]);
    DigitRunUpTo(w, 4);
  }

  /** Digits up to position n and no digit at n make a run of length n. */
  lemma {:induction false} DigitRunUpTo(s: string, n: nat)
    requires n < |s| && !IsDigit(s[n])
    requires forall i :: 0 <= i < n ==> IsDigit(s[i])
    ensures DigitRun(s) == n
  {
    if n > 0 {
      DigitRunUpTo(s[1..], n - 1);
    }
  }
}
