/**
 * The string operations the site scripts rely on, with the meaning Python and
 * JavaScript give them: `startswith`/`endswith`, the substring test `in`,
 * `str.find`, `str.split(sep)`, `join`, replace-all (`str.replace`,
 * `String.replace(/p/g, …)`), the ordering of strings, and decimal digits.
 */
module Text {
  import opened Wrappers

  predicate StartsWith(s: string, p: string) {
    |p| <= |s| && s[..|p|] == p
  }

  predicate EndsWith(s: string, p: string) {
    |p| <= |s| && s[|s| - |p|..] == p
  }

  /** `pat` occurs somewhere in `s` (Python's `pat in s`). */
  predicate Contains(s: string, pat: string)
    decreases |s|
  {
    StartsWith(s, pat) || (|s| > 0 && Contains(s[1..], pat))
  }

  lemma {:induction false} OccurrenceContains(s: string, pat: string, i: nat)
    requires i <= |s| && StartsWith(s[i..], pat)
    ensures Contains(s, pat)
    decreases i
  {
    if i > 0 {
      assert s[1..][i - 1..] == s[i..];
      OccurrenceContains(s[1..], pat, i - 1);
    }
  }

  lemma {:induction false} ContainsOccurrence(s: string, pat: string) returns (i: nat)
    requires Contains(s, pat)
    ensures i <= |s| && StartsWith(s[i..], pat)
    decreases |s|
  {
    if StartsWith(s, pat) {
      i := 0;
    } else {
      var j := ContainsOccurrence(s[1..], pat);
      assert s[1..][j..] == s[j + 1..];
      i := j + 1;
    }
  }

  /** A string shorter than the pattern cannot contain it. */
  lemma {:induction false} ShortFree(s: string, pat: string)
    requires |s| < |pat|
    ensures !Contains(s, pat)
    decreases |s|
  {
    if |s| > 0 {
      ShortFree(s[1..], pat);
    }
  }

  /** A string in which the pattern's first character never appears cannot contain it. */
  lemma {:induction false} FirstCharFree(s: string, pat: string)
    requires |pat| > 0
    requires forall i | 0 <= i < |s| :: s[i] != pat[0]
    ensures !Contains(s, pat)
    decreases |s|
  {
    if |s| > 0 {
      if |pat| <= |s| {
        assert s[..|pat|][0] == s[0];
      }
      FirstCharFree(s[1..], pat);
    }
  }

  /** Index of the first occurrence of `pat` in `s` (Python's `str.find`, with None for -1). */
  function Find(s: string, pat: string): (r: Option<nat>)
    decreases |s|
    ensures r.None? <==> !Contains(s, pat)
    ensures r.Some? ==> r.value <= |s| && StartsWith(s[r.value..], pat)
  {
    if StartsWith(s, pat) then Some(0)
    else if |s| == 0 then None
    else match Find(s[1..], pat)
      case None => None
      case Some(i) =>
        assert s[1..][i..] == s[i + 1..];
        Some(i + 1)
  }

  /** No occurrence precedes the one `Find` reports. */
  lemma {:induction false} FindEarliest(s: string, pat: string)
    ensures Find(s, pat).Some? ==> forall j | 0 <= j < Find(s, pat).value :: !StartsWith(s[j..], pat)
    decreases |s|
  {
    if !StartsWith(s, pat) && |s| > 0 {
      FindEarliest(s[1..], pat);
      if Find(s[1..], pat).Some? {
        var i := Find(s[1..], pat).value;
        forall j | 1 <= j < i + 1 ensures !StartsWith(s[j..], pat) {
          assert s[j..] == s[1..][j - 1..];
        }
      }
    }
  }

  /** An occurrence with none before it is the one `Find` reports. */
  lemma FindFirst(s: string, pat: string, i: nat)
    requires i <= |s| && StartsWith(s[i..], pat)
    requires forall j | 0 <= j < i :: !StartsWith(s[j..], pat)
    ensures Find(s, pat) == Some(i)
  {
    OccurrenceContains(s, pat, i);
    FindEarliest(s, pat);
  }

  lemma PrefixOccurrence(s: string, pat: string, i: nat, j: nat)
    ensures i <= |s| && j <= i && StartsWith(s[..i][j..], pat) ==> StartsWith(s[j..], pat) && j + |pat| <= i
  {
    if i <= |s| && j <= i && StartsWith(s[..i][j..], pat) {
      assert s[j..][..|pat|] == s[..i][j..][..|pat|];
    }
  }

  /** The text before the first occurrence does not contain the pattern. */
  lemma PrefixBeforeFirst(s: string, pat: string, i: nat)
    requires |pat| > 0 && i <= |s|
    requires forall j | 0 <= j < i :: !StartsWith(s[j..], pat)
    ensures !Contains(s[..i], pat)
  {
    if Contains(s[..i], pat) {
      var j := ContainsOccurrence(s[..i], pat);
      PrefixOccurrence(s, pat, i, j);
      assert false;
    }
  }

  /**
   * No occurrence of `pat` in `a + b` can begin inside `a` and end inside `b`:
   * either `b`'s first character is not a later character of `pat`, or `a`'s
   * last character is not an earlier one.
   */
  predicate NoBridge(a: string, b: string, pat: string) {
    || |a| == 0
    || |b| == 0
    || (forall k | 1 <= k < |pat| :: pat[k] != b[0])
    || (forall k | 0 <= k < |pat| - 1 :: pat[k] != a[|a| - 1])
  }

  lemma NoMatchInLeft(a: string, b: string, pat: string, j: nat)
    requires |pat| > 0 && !Contains(a, pat) && NoBridge(a, b, pat)
    requires j < |a|
    ensures !StartsWith((a + b)[j..], pat)
  {
    if StartsWith((a + b)[j..], pat) {
      if j + |pat| <= |a| {
        assert a[j..][..|pat|] == (a + b)[j..][..|pat|];
        OccurrenceContains(a, pat, j);
      } else {
        StraddleChars(a, b, pat, j);
        assert false;
      }
    }
  }

  lemma StraddleChars(a: string, b: string, pat: string, j: nat)
    ensures j < |a| < j + |pat| && StartsWith((a + b)[j..], pat) ==>
      pat[|a| - j] == b[0] && pat[|a| - j - 1] == a[|a| - 1]
  {
    if j < |a| < j + |pat| && StartsWith((a + b)[j..], pat) {
      assert pat[|a| - j] == (a + b)[j..][|a| - j];
      assert pat[|a| - j - 1] == (a + b)[j..][|a| - j - 1];
    }
  }

  /** Gluing two pattern-free strings without a bridging occurrence stays pattern-free. */
  lemma ConcatFree(a: string, b: string, pat: string)
    requires |pat| > 0 && !Contains(a, pat) && !Contains(b, pat) && NoBridge(a, b, pat)
    ensures !Contains(a + b, pat)
  {
    if Contains(a + b, pat) {
      var i := ContainsOccurrence(a + b, pat);
      if i < |a| {
        NoMatchInLeft(a, b, pat, i);
      } else {
        assert (a + b)[i..] == b[i - |a|..];
        OccurrenceContains(b, pat, i - |a|);
      }
    }
  }

  /** Text free of the pattern, between two strings made of characters the pattern lacks, stays free of it. */
  lemma FreeAround(l: string, mid: string, r: string, pat: string)
    requires |pat| > 0 && !Contains(mid, pat)
    requires forall i | 0 <= i < |l| :: l[i] !in pat
    requires forall i | 0 <= i < |r| :: r[i] !in pat
    ensures !Contains(l + mid + r, pat)
  {
    FirstCharFree(l, pat);
    FirstCharFree(r, pat);
    assert NoBridge(l, mid, pat) by {
      if |l| > 0 {
        assert l[|l| - 1] !in pat;
      }
    }
    ConcatFree(l, mid, pat);
    assert NoBridge(l + mid, r, pat) by {
      if |r| > 0 {
        assert r[0] !in pat;
      }
    }
    ConcatFree(l + mid, r, pat);
  }

  /** A one-character pattern occurs exactly when that character does. */
  lemma {:induction false} ContainsChar(s: string, c: char)
    ensures Contains(s, [c]) <==> c in s
    decreases |s|
  {
    if |s| > 0 {
      ContainsChar(s[1..], c);
      assert s == [s[0]] + s[1..];
    }
  }

  function Join(parts: seq<string>, sep: string): string
  {
    if |parts| == 0 then ""
    else if |parts| == 1 then parts[0]
    else parts[0] + sep + Join(parts[1..], sep)
  }

  /** Python's `s.split(sep)`: the pieces between the non-overlapping occurrences, left to right. */
  function Split(s: string, sep: string): (r: seq<string>)
    requires |sep| > 0
    decreases |s|
    ensures |r| > 0
  {
    match Find(s, sep)
    case None => [s]
    case Some(i) => [s[..i]] + Split(s[i + |sep|..], sep)
  }

  function Last<T>(s: seq<T>): T
    requires |s| > 0
  {
    s[|s| - 1]
  }

  /** A split at the first separator: the piece before it, then the split of the rest. */
  lemma SplitStep(s: string, sep: string)
    requires |sep| > 0 && Find(s, sep).Some?
    ensures var i := Find(s, sep).value;
      && i + |sep| <= |s|
      && Split(s, sep) == [s[..i]] + Split(s[i + |sep|..], sep)
      && s == s[..i] + sep + s[i + |sep|..]
  {
    var i := Find(s, sep).value;
    SplitRecombine(s, sep, i);
  }

  lemma SplitRecombine(s: string, sep: string, i: nat)
    requires i <= |s| && StartsWith(s[i..], sep)
    ensures i + |sep| <= |s| && s == s[..i] + sep + s[i + |sep|..]
  {
    assert s[i..][..|sep|] == sep;
    assert s == s[..i] + s[i..][..|sep|] + s[i + |sep|..];
  }

  lemma JoinCons(a: string, t: seq<string>, sep: string)
    requires |t| > 0
    ensures Join([a] + t, sep) == a + sep + Join(t, sep)
  {
    assert ([a] + t)[1..] == t;
  }

  lemma EndsWithAppend(a: string, b: string, p: string)
    requires EndsWith(b, p)
    ensures EndsWith(a + b, p)
  {
    assert (a + b)[|a + b| - |p|..] == b[|b| - |p|..];
  }

  /** Joining the pieces with the separator gives back the string. */
  lemma {:induction false} SplitJoin(s: string, sep: string)
    requires |sep| > 0
    ensures Join(Split(s, sep), sep) == s
    decreases |s|
  {
    if Find(s, sep).Some? {
      var i := Find(s, sep).value;
      var rest := s[i + |sep|..];
      SplitStep(s, sep);
      SplitJoin(rest, sep);
      JoinCons(s[..i], Split(rest, sep), sep);
    }
  }

  /** No piece of a split contains the separator. */
  lemma {:induction false} SplitPiecesFree(s: string, sep: string)
    requires |sep| > 0
    ensures forall k | 0 <= k < |Split(s, sep)| :: !Contains(Split(s, sep)[k], sep)
    decreases |s|
  {
    match Find(s, sep)
    case None =>
    case Some(i) =>
      var first, rest := s[..i], s[i + |sep|..];
      assert Split(s, sep) == [first] + Split(rest, sep) by {
        SplitStep(s, sep);
      }
      assert !Contains(first, sep) by {
        FindEarliest(s, sep);
        PrefixBeforeFirst(s, sep, i);
      }
      SplitPiecesFree(rest, sep);
      PiecesCons(first, Split(rest, sep), sep);
  }

  /** A free piece in front of free pieces. */
  lemma PiecesCons(first: string, pieces: seq<string>, sep: string)
    requires !Contains(first, sep)
    requires forall k | 0 <= k < |pieces| :: !Contains(pieces[k], sep)
    ensures forall k | 0 <= k < |[first] + pieces| :: !Contains(([first] + pieces)[k], sep)
  {
  }

  /**
   * `s.split(sep)[0]`: the text before the first separator, the whole string
   * when there is none.
   */
  lemma FirstPiece(s: string, sep: string)
    requires |sep| > 0
    ensures var r := Split(s, sep)[0];
      && StartsWith(s, r)
      && !Contains(r, sep)
      && (Contains(s, sep) <==> |r| < |s|)
      && (|r| < |s| ==> StartsWith(s[|r|..], sep))
  {
    match Find(s, sep)
    case None =>
    case Some(i) =>
      FindEarliest(s, sep);
      PrefixBeforeFirst(s, sep, i);
  }

  /**
   * `s.split(sep)[-1]`: the text after the last separator, the whole string
   * when there is none.
   */
  lemma {:induction false} LastPiece(s: string, sep: string)
    requires |sep| > 0
    ensures var r := Last(Split(s, sep));
      && EndsWith(s, r)
      && !Contains(r, sep)
      && (Contains(s, sep) <==> |r| < |s|)
    decreases |s|
  {
    if Find(s, sep).Some? {
      var i := Find(s, sep).value;
      var rest := s[i + |sep|..];
      SplitStep(s, sep);
      SplitLast(s, sep);
      LastPiece(rest, sep);
      EndsWithAppend(s[..i] + sep, rest, Last(Split(rest, sep)));
    }
  }

  /** Past the first separator, the last piece is the last piece of the rest. */
  lemma SplitLast(s: string, sep: string)
    requires |sep| > 0 && Find(s, sep).Some?
    ensures Last(Split(s, sep)) == Last(Split(s[Find(s, sep).value + |sep|..], sep))
  {
    SplitStep(s, sep);
  }

  /** `r` is no longer than `s`, and a proper suffix of it only when `sep` ends what comes before it. */
  predicate SeparatorBefore(s: string, r: string, sep: string) {
    |r| <= |s| && (|r| < |s| ==> EndsWith(s[..|s| - |r|], sep))
  }

  /** What precedes the last piece, when anything does, ends with the separator. */
  lemma {:induction false} LastPieceAfterSeparator(s: string, sep: string)
    requires |sep| > 0
    ensures SeparatorBefore(s, Last(Split(s, sep)), sep)
    decreases |s|
  {
    match Find(s, sep)
    case None =>
      assert Split(s, sep) == [s];
    case Some(i) =>
      var rest := s[i + |sep|..];
      SplitLast(s, sep);
      LastPieceAfterSeparator(rest, sep);
      SeparatorBeforeSuffix(s, sep, i, Last(Split(rest, sep)));
  }

  /** What `s.split(sep)[-1]` promises, gathered: a suffix, after a separator, without one, of characters of `s`. */
  lemma LastPieceFacts(s: string, sep: string)
    requires |sep| > 0
    ensures var r := Last(Split(s, sep));
      && EndsWith(s, r)
      && !Contains(r, sep)
      && SeparatorBefore(s, r, sep)
      && forall c | c in r :: c in s
  {
    LastPiece(s, sep);
    LastPieceAfterSeparator(s, sep);
    var r := Last(Split(s, sep));
    assert r == s[|s| - |r|..];
  }

  /** A separator in front of a string carries the property over to the longer string. */
  lemma SeparatorBeforeSuffix(s: string, sep: string, i: nat, r: string)
    requires i <= |s| && StartsWith(s[i..], sep)
    requires SeparatorBefore(s[i + |sep|..], r, sep)
    ensures SeparatorBefore(s, r, sep)
  {
    var head, rest := s[..i + |sep|], s[i + |sep|..];
    assert s[i..][..|sep|] == sep;
    assert head[|head| - |sep|..] == sep;
    if |r| < |rest| {
      var mid := rest[..|rest| - |r|];
      assert s[..|s| - |r|] == head + mid;
      assert (head + mid)[|head + mid| - |sep|..] == mid[|mid| - |sep|..];
    } else {
      assert s[..|s| - |r|] == head;
    }
  }

  /** Splitting a join recovers the parts when no part contains the separator. */
  lemma {:induction false} JoinSplit(parts: seq<string>, sep: string)
    requires |parts| > 0 && |sep| > 0
    requires forall k | 1 <= k < |sep| :: sep[k] != sep[0]
    requires forall k | 0 <= k < |parts| :: !Contains(parts[k], sep)
    ensures Split(Join(parts, sep), sep) == parts
    decreases |parts|
  {
    if |parts| > 1 {
      var rest := parts[1..];
      assert Join(parts, sep) == parts[0] + sep + Join(rest, sep);
      SplitAfterFree(parts[0], Join(rest, sep), sep);
      JoinSplit(rest, sep);
      assert parts == [parts[0]] + rest;
    }
  }

  /** A separator-free text followed by a separator is the first piece of the split. */
  lemma SplitAfterFree(a: string, rest: string, sep: string)
    requires |sep| > 0 && !Contains(a, sep)
    requires forall k | 1 <= k < |sep| :: sep[k] != sep[0]
    ensures Split(a + sep + rest, sep) == [a] + Split(rest, sep)
  {
    var s := a + sep + rest;
    assert s == a + (sep + rest);
    assert NoBridge(a, sep + rest, sep) by {
      assert (sep + rest)[0] == sep[0];
    }
    forall j | 0 <= j < |a| ensures !StartsWith(s[j..], sep) {
      NoMatchInLeft(a, sep + rest, sep, j);
    }
    assert s[|a|..][..|sep|] == sep;
    FindFirst(s, sep, |a|);
    SplitStep(s, sep);
    assert s[..|a|] == a;
    assert s[|a| + |sep|..] == rest;
  }

  /** Replace every non-overlapping occurrence of `pat`, scanning left to right. */
  function ReplaceAll(s: string, pat: string, rep: string): string
    requires |pat| > 0
    decreases |s|
  {
    if |s| == 0 then ""
    else if StartsWith(s, pat) then rep + ReplaceAll(s[|pat|..], pat, rep)
    else [s[0]] + ReplaceAll(s[1..], pat, rep)
  }

  lemma ReplaceLeading(pat: string, b: string, rep: string)
    requires |pat| > 0
    ensures ReplaceAll(pat + b, pat, rep) == rep + ReplaceAll(b, pat, rep)
  {
    assert (pat + b)[..|pat|] == pat;
    assert (pat + b)[|pat|..] == b;
  }

  /** A pattern-free prefix that no occurrence bridges passes through unchanged. */
  lemma {:induction false} ReplaceSkip(a: string, b: string, pat: string, rep: string)
    requires |pat| > 0 && !Contains(a, pat) && NoBridge(a, b, pat)
    ensures ReplaceAll(a + b, pat, rep) == a + ReplaceAll(b, pat, rep)
    decreases |a|
  {
    if |a| > 0 {
      var s, tail := a + b, a[1..];
      NoMatchInLeft(a, b, pat, 0);
      assert s[0..] == s;
      ReplaceFirstChar(s, pat, rep);
      assert s[1..] == tail + b;
      assert NoBridge(tail, b, pat) by {
        if |tail| > 0 {
          assert tail[|tail| - 1] == a[|a| - 1];
        }
      }
      ReplaceSkip(tail, b, pat, rep);
      ConsAssoc(a, ReplaceAll(b, pat, rep));
    } else {
      assert a + b == b;
    }
  }

  /**
   * The pattern, a pattern-free text, the pattern again and a pattern-free
   * tail: both occurrences are replaced.
   */
  lemma ReplaceTwice(pat: string, a: string, b: string, rep: string)
    requires |pat| > 0 && !Contains(a, pat) && !Contains(b, pat)
    requires forall k | 1 <= k < |pat| :: pat[k] != pat[0]
    ensures ReplaceAll(pat + a + pat + b, pat, rep) == rep + a + rep + b
  {
    var tail := ReplaceAll(pat + b, pat, rep);
    assert tail == rep + b by {
      ReplaceAbsent(b, pat, rep);
      ReplaceLeading(pat, b, rep);
    }
    assert ReplaceAll(a + (pat + b), pat, rep) == a + tail by {
      assert NoBridge(a, pat + b, pat) by {
        if |a| > 0 {
          assert (pat + b)[0] == pat[0];
        }
      }
      ReplaceSkip(a, pat + b, pat, rep);
    }
    assert ReplaceAll(pat + (a + (pat + b)), pat, rep) == rep + (a + tail) by {
      ReplaceLeading(pat, a + (pat + b), rep);
    }
    Assoc4(pat, a, pat, b);
    Assoc4(rep, a, rep, b);
  }

  lemma Assoc4(w: string, x: string, y: string, z: string)
    ensures w + x + y + z == w + (x + (y + z))
  {
  }

  lemma Assoc5(a: string, b: string, c: string, d: string, e: string)
    ensures a + b + (c + d + e) == a + (b + c) + d + e
    ensures a + (b + c) + d + e == a + b + c + d + e
  {
  }

  /** A string that does not start with the pattern keeps its first character. */
  lemma ReplaceFirstChar(s: string, pat: string, rep: string)
    requires |pat| > 0 && |s| > 0 && !StartsWith(s, pat)
    ensures ReplaceAll(s, pat, rep) == [s[0]] + ReplaceAll(s[1..], pat, rep)
  {
  }

  lemma ConsAssoc(a: string, r: string)
    requires |a| > 0
    ensures [a[0]] + (a[1..] + r) == a + r
  {
    assert a == [a[0]] + a[1..];
  }

  lemma ReplaceAbsent(s: string, pat: string, rep: string)
    requires |pat| > 0 && !Contains(s, pat)
    ensures ReplaceAll(s, pat, rep) == s
  {
    ReplaceSkip(s, "", pat, rep);
    assert s + "" == s;
  }

  /**
   * Replacing a separator that occurs in no part re-joins the parts with the
   * replacement.
   */
  lemma {:induction false} ReplaceJoin(parts: seq<string>, sep: string, rep: string)
    requires |sep| > 0
    requires forall k | 1 <= k < |sep| :: sep[k] != sep[0]
    requires forall k | 0 <= k < |parts| :: !Contains(parts[k], sep)
    ensures ReplaceAll(Join(parts, sep), sep, rep) == Join(parts, rep)
    decreases |parts|
  {
    if |parts| == 0 {
    } else if |parts| == 1 {
      ReplaceAbsent(parts[0], sep, rep);
    } else {
      var a, rest := parts[0], Join(parts[1..], sep);
      assert Join(parts, sep) == a + (sep + rest);
      ReplaceSkip(a, sep + rest, sep, rep);
      ReplaceLeading(sep, rest, rep);
      ReplaceJoin(parts[1..], sep, rep);
    }
  }

  /**
   * Replacing every occurrence of a pattern that cannot overlap itself is
   * splitting at it and joining the pieces with the replacement.
   */
  lemma ReplaceAllSplit(s: string, pat: string, rep: string)
    requires |pat| > 0
    requires forall k | 1 <= k < |pat| :: pat[k] != pat[0]
    ensures ReplaceAll(s, pat, rep) == Join(Split(s, pat), rep)
  {
    SplitJoin(s, pat);
    SplitPiecesFree(s, pat);
    ReplaceJoin(Split(s, pat), pat, rep);
  }

  /** The line break of the pages, `<br>`, cannot overlap itself. */
  lemma BreakTagShape()
    ensures forall k | 1 <= k < |"<br>"| :: "<br>"[k] != "<br>"[0]
  {
    assert "<br>"[1] == 'b' && "<br>"[2] == 'r' && "<br>"[3] == '>';
  }

  /** Python's `a <= b` on strings: code-point order, a proper prefix first. */
  predicate LexLe(a: string, b: string)
    decreases |a|
  {
    |a| == 0 || (|b| > 0 && (a[0] < b[0] || (a[0] == b[0] && LexLe(a[1..], b[1..]))))
  }

  lemma {:induction false} LexTotal(a: string, b: string)
    ensures LexLe(a, b) || LexLe(b, a)
    decreases |a|
  {
    if |a| > 0 && |b| > 0 && a[0] == b[0] {
      LexTotal(a[1..], b[1..]);
    }
  }

  lemma {:induction false} LexTransitive(a: string, b: string, c: string)
    requires LexLe(a, b) && LexLe(b, c)
    ensures LexLe(a, c)
    decreases |a|
  {
    if |a| > 0 && a[0] == b[0] && b[0] == c[0] {
      LexTransitive(a[1..], b[1..], c[1..]);
    }
  }

  predicate IsDigit(c: char) {
    '0' <= c <= '9'
  }

  predicate AllDigits(s: string) {
    forall i | 0 <= i < |s| :: IsDigit(s[i])
  }

  function DigitChar(d: nat): (c: char)
    requires d < 10
    ensures IsDigit(c)
  {
    (('0' as int) + d) as char
  }

  function DigitValue(c: char): nat
    requires IsDigit(c)
  {
    (c as int) - ('0' as int)
  }

  /** The decimal numeral of `n` (JavaScript's `n.toString()` for a non-negative integer). */
  function Digits(n: nat): (r: string)
    decreases n
    ensures |r| > 0 && AllDigits(r)
    ensures r[0] == '0' ==> n == 0
    ensures n < 10 <==> |r| == 1
  {
    if n < 10 then [DigitChar(n)] else Digits(n / 10) + [DigitChar(n % 10)]
  }

  function ParseDigits(s: string): nat
    requires AllDigits(s)
    decreases |s|
  {
    if |s| == 0 then 0 else ParseDigits(s[..|s| - 1]) * 10 + DigitValue(s[|s| - 1])
  }

  /** Reading the numeral back gives the number. */
  lemma {:induction false} DigitsRoundTrip(n: nat)
    ensures ParseDigits(Digits(n)) == n
    decreases n
  {
    if n >= 10 {
      DigitsRoundTrip(n / 10);
      var d := Digits(n);
      assert d[..|d| - 1] == Digits(n / 10);
    }
  }
}
