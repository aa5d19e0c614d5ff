/** The JavaScript string primitives the chat handler relies on: the white-space
    class shared by the regular-expression escape `\s` and `String.prototype.trim`,
    `trim` itself, `split` on a single separator, `split(/\r?\n/)` and `join`. */
module JsText {

  /** White space as JavaScript defines it for `\s` and `trim`: the WhiteSpace and
      LineTerminator code points of ECMAScript 2019 and later. */
  predicate IsSpace(c: char) {
    c == '\t' || c == '\n' || c == '\U{000B}' || c == '\U{000C}' || c == '\r' || c == ' '
    || c == '\U{00A0}' || c == '\U{1680}' || ('\U{2000}' <= c <= '\U{200A}')
    || c == '\U{2028}' || c == '\U{2029}' || c == '\U{202F}' || c == '\U{205F}'
    || c == '\U{3000}' || c == '\U{FEFF}'
  }

  predicate AllSpace(s: string) {
    forall i :: 0 <= i < |s| ==> IsSpace(s[i])
  }

  /** Neither end of `s` is white space. */
  predicate IsTrimmed(s: string) {
    s == [] || (!IsSpace(s[0]) && !IsSpace(s[|s| - 1]))
  }

  predicate IsSuffix(r: string, s: string) {
    |r| <= |s| && s[|s| - |r|..] == r
  }

  /** Being a suffix is transitive. */
  lemma SuffixTransitive(a: string, b: string, c: string)
    requires IsSuffix(a, b) && IsSuffix(b, c)
    ensures IsSuffix(a, c)
  {
    assert c[|c| - |a|..] == c[|c| - |b|..][|b| - |a|..];
  }

  /** `s.trimStart()`. */
  function TrimStart(s: string): (r: string)
    ensures |r| <= |s|
  {
    if |s| > 0 && IsSpace(s[0]) then TrimStart(s[1..]) else s
  }

  /** `s.trimEnd()`. */
  function TrimEnd(s: string): (r: string)
    ensures |r| <= |s|
  {
    if |s| > 0 && IsSpace(s[|s| - 1]) then TrimEnd(s[..|s| - 1]) else s
  }

  /** `s.trim()`. */
  function Trim(s: string): (r: string)
    ensures |r| <= |s|
  {
    TrimStart(TrimEnd(s))
  }

  /** `trimStart` removes a run of white space and stops at the first other character. */
  lemma {:induction false} TrimStartSpec(s: string)
    ensures var r := TrimStart(s);
      && IsSuffix(r, s)
      && AllSpace(s[..|s| - |r|])
      && (r == [] || !IsSpace(r[0]))
  {
    if |s| > 0 && IsSpace(s[0]) {
      TrimStartSpec(s[1..]);
      var r := TrimStart(s);
      assert s[1..][..|s| - 1 - |r|] == s[1..|s| - |r|];
    }
  }

  /** `trimEnd` removes a run of white space and stops at the last other character. */
  lemma {:induction false} TrimEndSpec(s: string)
    ensures var r := TrimEnd(s);
      && |r| <= |s| && s[..|r|] == r
      && AllSpace(s[|r|..])
      && (r == [] || !IsSpace(r[|r| - 1]))
  {
    if |s| > 0 && IsSpace(s[|s| - 1]) {
      TrimEndSpec(s[..|s| - 1]);
      var r := TrimEnd(s);
      assert s[|r|..] == s[..|s| - 1][|r|..] + [s[|s| - 1]];
    }
  }

  /** `r` sits at offset `i` of `s` with only white space around it. */
  ghost predicate PaddedAt(s: string, r: string, i: int) {
    0 <= i <= |s| - |r| && s[i..i + |r|] == r && AllSpace(s[..i]) && AllSpace(s[i + |r|..])
  }

  /** Cutting white space off the end, then off the start, leaves a padded infix. */
  lemma PaddingCompose(s: string, e: string, r: string)
    requires |e| <= |s| && s[..|e|] == e && AllSpace(s[|e|..])
    requires IsSuffix(r, e) && AllSpace(e[..|e| - |r|])
    ensures PaddedAt(s, r, |e| - |r|)
  {
    var i := |e| - |r|;
    assert s[i..i + |r|] == e[i..];
    assert s[..i] == e[..i];
  }

  /** A string padded by white space around an empty middle is all white space. */
  lemma PaddedEmpty(s: string, i: int)
    requires PaddedAt(s, [], i)
    ensures AllSpace(s)
  {
    forall k | 0 <= k < |s| ensures IsSpace(s[k]) {
      if k < i {
        assert s[k] == s[..i][k];
      } else {
        assert s[k] == s[i..][k - i];
      }
    }
  }

  /** `trim`: `s` is white space, then the result, then white space; the result
      neither starts nor ends with white space; and it is empty exactly when `s`
      is all white space. */
  lemma TrimSpec(s: string)
    ensures IsTrimmed(Trim(s))
    ensures exists i :: PaddedAt(s, Trim(s), i)
    ensures Trim(s) == [] <==> AllSpace(s)
  {
    var e := TrimEnd(s);
    var r := TrimStart(e);
    var i := |e| - |r|;
    TrimPadded(s);
    TrimIsTrimmed(s);
    if r == [] {
      PaddedEmpty(s, i);
    } else {
      PaddedNotSpace(s, r, i);
    }
  }

  /** What `trim` leaves sits in `s` with only white space around it. */
  lemma TrimPadded(s: string)
    ensures PaddedAt(s, Trim(s), |TrimEnd(s)| - |Trim(s)|)
  {
    var e := TrimEnd(s);
    var r := TrimStart(e);
    assert r == Trim(s);
    assert |e| <= |s| && s[..|e|] == e && AllSpace(s[|e|..]) by {
      TrimEndSpec(s);
    }
    assert IsSuffix(r, e) && AllSpace(e[..|e| - |r|]) by {
      TrimStartSpec(e);
    }
    PaddingCompose(s, e, r);
  }

  /** What `trim` leaves starts and ends with a character that is not white space. */
  lemma TrimIsTrimmed(s: string)
    ensures IsTrimmed(Trim(s))
  {
    var e := TrimEnd(s);
    var r := TrimStart(e);
    assert r == Trim(s);
    assert e == [] || !IsSpace(e[|e| - 1]) by {
      TrimEndSpec(s);
    }
    assert IsSuffix(r, e) && (r == [] || !IsSpace(r[0])) by {
      TrimStartSpec(e);
    }
    TrimEnds(e, r);
  }

  /** Trimming the start of a string whose end is not white space leaves a trimmed string. */
  lemma TrimEnds(e: string, r: string)
    requires e == [] || !IsSpace(e[|e| - 1])
    requires IsSuffix(r, e) && (r == [] || !IsSpace(r[0]))
    ensures IsTrimmed(r)
  {
    if r != [] {
      assert r[|r| - 1] == e[|e| - 1];
    }
  }

  /** A padded middle that starts with a non-space keeps `s` from being all white space. */
  lemma PaddedNotSpace(s: string, r: string, i: int)
    requires PaddedAt(s, r, i) && r != [] && IsTrimmed(r)
    ensures !AllSpace(s)
  {
    assert r[0] == s[i];
  }

  /** Trimming never brings in a character the string does not hold. */
  lemma TrimKeepsOut(s: string, c: char)
    requires c !in s
    ensures c !in Trim(s)
  {
    TrimSpec(s);
    var r := Trim(s);
    var i :| PaddedAt(s, r, i);
    forall k | 0 <= k < |r| ensures r[k] != c {
      assert r[k] == s[i + k];
    }
  }

  /** A suffix of a string without white space at its ends trims to a suffix of that string. */
  lemma TrimOfSuffix(x: string, s: string)
    requires IsTrimmed(s) && IsSuffix(x, s)
    ensures IsSuffix(Trim(x), s)
  {
    if x != [] {
      assert x[|x| - 1] == s[|s| - 1];
      assert TrimEnd(x) == x;
      TrimStartSpec(x);
      SuffixTransitive(Trim(x), x, s);
    }
  }

  /** A string with no white space at either end is its own trim. */
  lemma TrimmedIsFixpoint(s: string)
    requires IsTrimmed(s)
    ensures Trim(s) == s
  {
    assert TrimEnd(s) == s;
    assert TrimStart(s) == s;
  }

  /** Dropping one trailing carriage return does not change the trim. */
  lemma TrimIgnoresTrailingCR(s: string)
    ensures Trim(s + ['\r']) == Trim(s)
  {
    assert (s + ['\r'])[..|s|] == s;
    assert TrimEnd(s + ['\r']) == TrimEnd(s);
  }

  /** `s.split(sep)` for a one-character separator: the pieces between the
      separators, always at least one (`"".split(sep)` is `[""]`). */
  function SplitOn(s: string, sep: char): (r: seq<string>)
    ensures |r| >= 1
  {
    if |s| == 0 then [""]
    else
      var rest := SplitOn(s[1..], sep);
      if s[0] == sep then [""] + rest else [[s[0]] + rest[0]] + rest[1..]
  }

  /** `pieces.join(sep)` for a one-character separator. */
  function JoinOn(pieces: seq<string>, sep: char): string {
    if |pieces| == 0 then ""
    else if |pieces| == 1 then pieces[0]
    else pieces[0] + [sep] + JoinOn(pieces[1..], sep)
  }

  /** `s.split(/\r?\n/)`: the pieces between line breaks, where both "\n" and
      "\r\n" end a line (and a lone "\r" does not). */
  function SplitLines(s: string): (r: seq<string>)
    ensures |r| >= 1
    decreases |s|
  {
    if |s| == 0 then [""]
    else if s[0] == '\n' then [""] + SplitLines(s[1..])
    else if |s| >= 2 && s[0] == '\r' && s[1] == '\n' then [""] + SplitLines(s[2..])
    else
      var rest := SplitLines(s[1..]);
      [[s[0]] + rest[0]] + rest[1..]
  }

  /** No piece of a split holds the separator. */
  lemma {:induction false} SplitOnPieces(s: string, sep: char)
    ensures forall i :: 0 <= i < |SplitOn(s, sep)| ==> sep !in SplitOn(s, sep)[i]
  {
    if |s| > 0 {
      SplitOnPieces(s[1..], sep);
    }
  }

  /** No piece of `split(/\r?\n/)` holds a line feed. */
  lemma {:induction false} SplitLinesPieces(s: string)
    ensures forall i :: 0 <= i < |SplitLines(s)| ==> '\n' !in SplitLines(s)[i]
    decreases |s|
  {
    if |s| == 0 {
    } else if s[0] == '\n' {
      SplitLinesPieces(s[1..]);
    } else if |s| >= 2 && s[0] == '\r' && s[1] == '\n' {
      SplitLinesPieces(s[2..]);
    } else {
      SplitLinesPieces(s[1..]);
    }
  }

  /** Joining the pieces of a split gives back the string. */
  lemma {:induction false} JoinSplit(s: string, sep: char)
    ensures JoinOn(SplitOn(s, sep), sep) == s
  {
    if |s| > 0 {
      var rest := SplitOn(s[1..], sep);
      JoinSplit(s[1..], sep);
      if s[0] == sep {
        assert SplitOn(s, sep)[1..] == rest;
        assert s == [s[0]] + s[1..];
      } else {
        var r := SplitOn(s, sep);
        if |rest| == 1 {
          assert s == [s[0]] + rest[0];
        } else {
          assert r[1..] == rest[1..];
          assert s[1..] == rest[0] + [sep] + JoinOn(rest[1..], sep);
          assert s == [s[0]] + s[1..];
        }
      }
    }
  }

  /** Splitting a string that has no separator gives that string alone. */
  lemma {:induction false} SplitWithoutSeparator(s: string, sep: char)
    requires sep !in s
    ensures SplitOn(s, sep) == [s]
  {
    if |s| > 0 {
      SplitWithoutSeparator(s[1..], sep);
      assert s == [s[0]] + s[1..];
    }
  }

  /** A separator splits a string into the pieces before it and the pieces after it. */
  lemma {:induction false} SplitConcat(a: string, b: string, sep: char)
    ensures SplitOn(a + [sep] + b, sep) == SplitOn(a, sep) + SplitOn(b, sep)
  {
    var s := a + [sep] + b;
    if |a| == 0 {
      assert s[1..] == b;
    } else {
      assert s[1..] == a[1..] + [sep] + b;
      SplitConcat(a[1..], b, sep);
      var ra := SplitOn(a[1..], sep);
      if a[0] == sep {
        assert s[0] == sep;
      } else {
        assert s[0] == a[0];
        assert (ra + SplitOn(b, sep))[0] == ra[0];
        assert (ra + SplitOn(b, sep))[1..] == ra[1..] + SplitOn(b, sep);
      }
    }
  }

  /** Splitting joined pieces gives the pieces back when none holds the separator. */
  lemma {:induction false} SplitJoin(pieces: seq<string>, sep: char)
    requires |pieces| >= 1
    requires forall i :: 0 <= i < |pieces| ==> sep !in pieces[i]
    ensures SplitOn(JoinOn(pieces, sep), sep) == pieces
  {
    if |pieces| == 1 {
      SplitWithoutSeparator(pieces[0], sep);
    } else {
      SplitWithoutSeparator(pieces[0], sep);
      SplitJoin(pieces[1..], sep);
      SplitConcat(pieces[0], JoinOn(pieces[1..], sep), sep);
      assert pieces == [pieces[0]] + pieces[1..];
    }
  }

  /** The two splits have the same number of pieces and the same last piece; every
      earlier line piece `l[i]` is the matching piece `p[i]`, or `p[i]` is it followed
      by one carriage return. */
  ghost predicate PiecesAgree(l: seq<string>, p: seq<string>) {
    |l| == |p| >= 1 && l[|l| - 1] == p[|p| - 1] &&
    forall i :: 0 <= i < |l| - 1 ==> p[i] == l[i] || p[i] == l[i] + ['\r']
  }

  /** Each piece of `split(/\r?\n/)` is the matching piece of `split("\n")`, less
      the carriage return that ends it when that piece was ended by "\r\n". */
  lemma {:induction false} SplitLinesAgreesWithSplitOn(s: string)
    ensures PiecesAgree(SplitLines(s), SplitOn(s, '\n'))
    decreases |s|
  {
    if |s| == 0 {
    } else if s[0] == '\n' {
      SplitLinesAgreesWithSplitOn(s[1..]);
      AgreeAfterNewline(s);
    } else if |s| >= 2 && s[0] == '\r' && s[1] == '\n' {
      SplitLinesAgreesWithSplitOn(s[2..]);
      AgreeAfterCRLF(s);
    } else {
      SplitLinesAgreesWithSplitOn(s[1..]);
      AgreeAfterChar(s);
    }
  }

  lemma AgreeAfterNewline(s: string)
    requires |s| >= 1 && s[0] == '\n'
    requires PiecesAgree(SplitLines(s[1..]), SplitOn(s[1..], '\n'))
    ensures PiecesAgree(SplitLines(s), SplitOn(s, '\n'))
  {
    var l, p := SplitLines(s[1..]), SplitOn(s[1..], '\n');
    assert SplitLines(s) == [""] + l;
    assert SplitOn(s, '\n') == [""] + p;
  }

  lemma AgreeAfterCRLF(s: string)
    requires |s| >= 2 && s[0] == '\r' && s[1] == '\n'
    requires PiecesAgree(SplitLines(s[2..]), SplitOn(s[2..], '\n'))
    ensures PiecesAgree(SplitLines(s), SplitOn(s, '\n'))
  {
    var l := SplitLines(s[2..]);
    var q := SplitOn(s[2..], '\n');
    assert SplitLines(s) == [""] + l;
    assert s[1..][1..] == s[2..];
    var p := SplitOn(s[1..], '\n');
    assert p == [""] + q;
    assert p[0] == "" && p[1..] == q;
    assert SplitOn(s, '\n') == [['\r'] + p[0]] + p[1..];
    assert ['\r'] + p[0] == "\r";
    assert SplitOn(s, '\n') == ["\r"] + q;
    CarriageReturnAgree(l, q);
  }

  /** A piece "" of one split against a piece "\r" of the other, in front of pieces
      that agree, keeps the splits in agreement. */
  lemma CarriageReturnAgree(l: seq<string>, q: seq<string>)
    requires PiecesAgree(l, q)
    ensures PiecesAgree([""] + l, ["\r"] + q)
  {
    var L, P := [""] + l, ["\r"] + q;
    assert L[|L| - 1] == l[|l| - 1] && P[|P| - 1] == q[|q| - 1];
    forall i | 0 <= i < |L| - 1 ensures P[i] == L[i] || P[i] == L[i] + ['\r'] {
      if i == 0 {
        assert P[0] == "" + ['\r'];
      } else {
        assert L[i] == l[i - 1] && P[i] == q[i - 1];
      }
    }
  }

  lemma AgreeAfterChar(s: string)
    requires |s| >= 1 && s[0] != '\n' && !(|s| >= 2 && s[0] == '\r' && s[1] == '\n')
    requires PiecesAgree(SplitLines(s[1..]), SplitOn(s[1..], '\n'))
    ensures PiecesAgree(SplitLines(s), SplitOn(s, '\n'))
  {
    var l, p := SplitLines(s[1..]), SplitOn(s[1..], '\n');
    PrependAgree(s[0], l, p);
  }

  /** Putting the same character in front of both first pieces keeps them in agreement. */
  lemma PrependAgree(c: char, l: seq<string>, p: seq<string>)
    requires |l| >= 1 && PiecesAgree(l, p)
    ensures PiecesAgree([[c] + l[0]] + l[1..], [[c] + p[0]] + p[1..])
  {
    var L, P := [[c] + l[0]] + l[1..], [[c] + p[0]] + p[1..];
    forall i | 0 <= i < |L| - 1 ensures P[i] == L[i] || P[i] == L[i] + ['\r'] {
      if i == 0 {
        assert [c] + (l[0] + ['\r']) == ([c] + l[0]) + ['\r'];
      } else {
        assert L[i] == l[i] && P[i] == p[i];
      }
    }
  }

  /** Trimming each piece of `split(/\r?\n/)` is trimming each piece of
      `split("\n")`, because `trim` removes the carriage return a "\r\n" leaves. */
  lemma TrimmedLinesAgree(s: string)
    ensures |SplitLines(s)| == |SplitOn(s, '\n')|
    ensures forall i :: 0 <= i < |SplitLines(s)| ==> Trim(SplitLines(s)[i]) == Trim(SplitOn(s, '\n')[i])
  {
    var l, p := SplitLines(s), SplitOn(s, '\n');
    SplitLinesAgreesWithSplitOn(s);
    forall i | 0 <= i < |l| ensures Trim(l[i]) == Trim(p[i]) {
      if i < |l| - 1 && p[i] != l[i] {
        assert p[i] == l[i] + ['\r'];
        TrimIgnoresTrailingCR(l[i]);
      }
    }
  }

  /** A join of white-space pieces on a white-space separator is white space. */
  lemma {:induction false} JoinOfSpaceIsSpace(pieces: seq<string>, sep: char)
    requires IsSpace(sep)
    requires forall i :: 0 <= i < |pieces| ==> AllSpace(pieces[i])
    ensures AllSpace(JoinOn(pieces, sep))
  {
    if |pieces| > 1 {
      JoinOfSpaceIsSpace(pieces[1..], sep);
      var t := JoinOn(pieces[1..], sep);
      forall k | 0 <= k < |pieces[0] + [sep] + t| ensures IsSpace((pieces[0] + [sep] + t)[k]) {
        if k < |pieces[0]| {
        } else if k == |pieces[0]| {
        } else {
          assert (pieces[0] + [sep] + t)[k] == t[k - |pieces[0]| - 1];
        }
      }
    }
  }
}
