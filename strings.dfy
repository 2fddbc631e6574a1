/**
 * The Python string operations the tool relies on, written out over seq<char>:
 * str.replace (all occurrences), str.split with a one-character separator,
 * str.join, the decimal form of an int, the split('.git')[0] idiom and
 * pathlib's Path.name.
 */
module Strings {

  /** `pat` occurs in `s` starting at index `i`. */
  predicate OccursAt(s: string, pat: string, i: nat) {
    i + |pat| <= |s| && s[i..i + |pat|] == pat
  }

  /** Python's `pat in s`. */
  predicate Contains(s: string, pat: string) {
    exists i: nat | i <= |s| :: OccursAt(s, pat, i)
  }

  predicate EndsWith(s: string, suffix: string) {
    |suffix| <= |s| && s[|s| - |suffix|..] == suffix
  }

  /**
   * Python's `s.replace(pat, rep)`: every occurrence of `pat`, scanning left
   * to right without overlap, becomes `rep`. An empty `pat` puts `rep` before
   * every character and at the end, as Python does.
   */
  function ReplaceAll(s: string, pat: string, rep: string): (r: string)
    ensures pat != [] && |rep| == |pat| ==> |r| == |s|
    ensures pat != [] && |rep| >= |pat| ==> |r| >= |s|
    decreases |s|
  {
    if pat == [] then
      (if s == [] then rep else rep + [s[0]] + ReplaceAll(s[1..], pat, rep))
    else if |s| < |pat| then s
    else if s[..|pat|] == pat then rep + ReplaceAll(s[|pat|..], pat, rep)
    else [s[0]] + ReplaceAll(s[1..], pat, rep)
  }

  /** A string in which the pattern does not occur is returned unchanged. */
  lemma {:induction false} ReplaceAllAbsent(s: string, pat: string, rep: string)
    requires pat != []
    requires !Contains(s, pat)
    ensures ReplaceAll(s, pat, rep) == s
    decreases |s|
  {
    if |s| >= |pat| {
      if s[..|pat|] == pat {
        assert OccursAt(s, pat, 0);
        assert false;
      }
      forall i: nat | OccursAt(s[1..], pat, i) ensures OccursAt(s, pat, i + 1) {
        assert s[i + 1..i + 1 + |pat|] == s[1..][i..i + |pat|];
      }
      ReplaceAllAbsent(s[1..], pat, rep);
    }
  }

  /** A string without the pattern's first character is returned unchanged. */
  lemma ReplaceAllMissingFirst(s: string, pat: string, rep: string)
    requires pat != [] && pat[0] !in s
    ensures ReplaceAll(s, pat, rep) == s
  {
    forall i: nat | i <= |s| ensures !OccursAt(s, pat, i) {
      if i + |pat| <= |s| {
        assert s[i..i + |pat|][0] == s[i];
      }
    }
    ReplaceAllAbsent(s, pat, rep);
  }

  /** A pattern at the start of a rest that lacks its first character is replaced just there. */
  lemma ReplaceAllAtStart(pat: string, rest: string, rep: string)
    requires pat != [] && pat[0] !in rest
    ensures ReplaceAll(pat + rest, pat, rep) == rep + rest
  {
    var s := pat + rest;
    assert s[..|pat|] == pat;
    assert s[|pat|..] == rest;
    ReplaceAllMissingFirst(rest, pat, rep);
  }

  /** Replacing a pattern by itself changes nothing. */
  lemma {:induction false} ReplaceAllIdentity(s: string, pat: string)
    ensures ReplaceAll(s, pat, pat) == s
    decreases |s|
  {
    if pat == [] {
      if s != [] {
        ReplaceAllIdentity(s[1..], pat);
        assert s == [s[0]] + s[1..];
      }
    } else if |s| >= |pat| {
      if s[..|pat|] == pat {
        ReplaceAllIdentity(s[|pat|..], pat);
        assert s == s[..|pat|] + s[|pat|..];
      } else {
        ReplaceAllIdentity(s[1..], pat);
        assert s == [s[0]] + s[1..];
      }
    }
  }

  /**
   * A replacement never consumes a final character that the pattern does not
   * contain, so the result ends with that character too.
   */
  lemma {:induction false} ReplaceAllKeepsLast(s: string, pat: string, rep: string, last: char)
    requires pat != []
    requires |s| > 0 && s[|s| - 1] == last
    requires last !in pat
    ensures var r := ReplaceAll(s, pat, rep); |r| > 0 && r[|r| - 1] == last
    decreases |s|
  {
    if |s| >= |pat| {
      if s[..|pat|] == pat {
        assert forall k :: 0 <= k < |pat| ==> s[k] == pat[k] && pat[k] != last;
        assert |pat| < |s|;
        assert s[|pat|..][|s| - |pat| - 1] == last;
        ReplaceAllKeepsLast(s[|pat|..], pat, rep, last);
      } else if |s| > 1 {
        assert s[1..][|s| - 2] == last;
        ReplaceAllKeepsLast(s[1..], pat, rep, last);
      } else {
        assert ReplaceAll(s[1..], pat, rep) == [];
      }
    }
  }

  /**
   * A pattern without `boundary` never matches across a `boundary` character,
   * so replacing in `a + b`, where `a` ends with one, is replacing in `a` and
   * in `b` separately.
   */
  lemma {:induction false} ReplaceAllSplitsAt(a: string, b: string, pat: string, rep: string, boundary: char)
    requires pat != []
    requires |a| > 0 && a[|a| - 1] == boundary
    requires boundary !in pat
    ensures ReplaceAll(a + b, pat, rep) == ReplaceAll(a, pat, rep) + ReplaceAll(b, pat, rep)
    decreases |a|
  {
    var s := a + b;
    if |s| < |pat| {
    } else if s[..|pat|] == pat {
      MatchEndsBeforeBoundary(a, b, pat, boundary);
      assert s[|pat|..] == a[|pat|..] + b;
      assert a[|pat|..][|a| - |pat| - 1] == boundary;
      ReplaceAllSplitsAt(a[|pat|..], b, pat, rep, boundary);
    } else if |a| == 1 {
      assert s[1..] == b;
      assert |pat| > 1 || pat[0] != a[0];
      assert ReplaceAll(a, pat, rep) == a;
    } else {
      assert s[1..] == a[1..] + b;
      assert a[1..][|a| - 2] == boundary;
      ReplaceAllSplitsAt(a[1..], b, pat, rep, boundary);
      ReplaceAllStepsLikeConcat(a, b, pat, rep);
    }
  }

  /** A match at the start of `a + b` lies inside `a` when `a` ends with a character the pattern lacks. */
  lemma MatchEndsBeforeBoundary(a: string, b: string, pat: string, boundary: char)
    requires |a| > 0 && a[|a| - 1] == boundary
    requires boundary !in pat
    requires |pat| <= |a + b| && (a + b)[..|pat|] == pat
    ensures |pat| < |a| && a[..|pat|] == pat
  {
    var s := a + b;
    assert forall k :: 0 <= k < |pat| ==> s[k] == pat[k] && pat[k] != boundary;
    assert s[|a| - 1] == boundary;
    assert |pat| < |a|;
    assert a[..|pat|] == s[..|pat|];
  }

  /** When `a + b` does not start with the pattern, neither does `a`, so `a` is scanned one character on. */
  lemma ReplaceAllStepsLikeConcat(a: string, b: string, pat: string, rep: string)
    requires pat != [] && |a| > 1
    requires |a + b| >= |pat| && (a + b)[..|pat|] != pat
    ensures ReplaceAll(a, pat, rep) == [a[0]] + ReplaceAll(a[1..], pat, rep)
  {
    if |a| < |pat| {
      assert |a[1..]| < |pat|;
      assert a == [a[0]] + a[1..];
    } else {
      assert a[..|pat|] == (a + b)[..|pat|];
    }
  }

  /**
   * Python's `s.split(sep)` with a one-character separator: the pieces
   * between separators, empty ones included.
   */
  function SplitOn(s: string, sep: char): (parts: seq<string>)
    ensures |parts| >= 1
    ensures forall i :: 0 <= i < |parts| ==> sep !in parts[i]
  {
    if s == [] then [[]]
    else
      var rest := SplitOn(s[1..], sep);
      if s[0] == sep then [[]] + rest else [[s[0]] + rest[0]] + rest[1..]
  }

  /** Python's `sep.join(parts)`. */
  function Join(parts: seq<string>, sep: string): string
  {
    if |parts| == 0 then []
    else if |parts| == 1 then parts[0]
    else parts[0] + sep + Join(parts[1..], sep)
  }

  lemma JoinConsChar(c: char, p: string, rest: seq<string>, sep: string)
    ensures Join([[c] + p] + rest, sep) == [c] + Join([p] + rest, sep)
  {
    if |rest| > 0 {
      assert ([[c] + p] + rest)[1..] == rest;
      assert ([p] + rest)[1..] == rest;
    }
  }

  /** Splitting and joining back with the same separator gives the string back. */
  lemma {:induction false} JoinSplitOn(s: string, sep: char)
    ensures Join(SplitOn(s, sep), [sep]) == s
    decreases |s|
  {
    if s != [] {
      var rest := SplitOn(s[1..], sep);
      JoinSplitOn(s[1..], sep);
      if s[0] == sep {
        assert ([[]] + rest)[1..] == rest;
      } else {
        JoinConsChar(s[0], rest[0], rest[1..], [sep]);
        assert [rest[0]] + rest[1..] == rest;
      }
    }
  }

  /** A separator splits the string in two, and the pieces of each half follow. */
  lemma {:induction false} SplitOnAround(x: string, sep: char, t: string)
    ensures SplitOn(x + [sep] + t, sep) == SplitOn(x, sep) + SplitOn(t, sep)
    decreases |x|
  {
    if x == [] {
      assert x + [sep] + t == [sep] + t;
      assert ([sep] + t)[1..] == t;
    } else {
      var s := x + [sep] + t;
      assert s[0] == x[0];
      assert s[1..] == x[1..] + [sep] + t;
      SplitOnAround(x[1..], sep, t);
    }
  }

  /** A piece without the separator splits into itself. */
  lemma {:induction false} SplitOnNoSeparator(p: string, sep: char)
    requires sep !in p
    ensures SplitOn(p, sep) == [p]
    decreases |p|
  {
    if p != [] {
      SplitOnNoSeparator(p[1..], sep);
      assert p == [p[0]] + p[1..];
    }
  }

  /**
   * Joining pieces that contain no separator and splitting again gives the
   * pieces back.
   */
  lemma {:induction false} SplitOnJoin(parts: seq<string>, sep: char)
    requires |parts| >= 1
    requires forall i :: 0 <= i < |parts| ==> sep !in parts[i]
    ensures SplitOn(Join(parts, [sep]), sep) == parts
    decreases |parts|
  {
    if |parts| == 1 {
      SplitOnNoSeparator(parts[0], sep);
    } else {
      SplitOnJoin(parts[1..], sep);
      SplitOnAround(parts[0], sep, Join(parts[1..], [sep]));
      SplitOnNoSeparator(parts[0], sep);
      assert [parts[0]] + parts[1..] == parts;
    }
  }

  predicate IsDigit(c: char) { '0' <= c <= '9' }

  predicate AllDigits(s: string) { forall i :: 0 <= i < |s| ==> IsDigit(s[i]) }

  function DigitChar(d: nat): char
    requires d < 10
  {
    ('0' as int + d) as char
  }

  /** The value of a string of decimal digits (leading zeros allowed). */
  function DigitsValue(s: string): nat
    requires AllDigits(s)
  {
    if s == [] then 0
    else DigitsValue(s[..|s| - 1]) * 10 + (s[|s| - 1] as int - '0' as int)
  }

  /** `str(n)` for a natural number: its decimal digits, most significant first. */
  function NatToDecimal(n: nat): (r: string)
    ensures |r| > 0 && AllDigits(r)
  {
    if n < 10 then [DigitChar(n)] else NatToDecimal(n / 10) + [DigitChar(n % 10)]
  }

  /** Reading back the decimal form of a number gives the number. */
  lemma {:induction false} DigitsValueOfDecimal(n: nat)
    ensures DigitsValue(NatToDecimal(n)) == n
  {
    var r := NatToDecimal(n);
    if n >= 10 {
      assert r[..|r| - 1] == NatToDecimal(n / 10);
      DigitsValueOfDecimal(n / 10);
    } else {
      assert r[..|r| - 1] == [];
    }
  }

  /**
   * `s.split(sep)[0]` for a non-empty separator (Python refuses an empty
   * one): everything before the first occurrence of `sep`.
   */
  function BeforeFirst(s: string, sep: string): (r: string)
    requires sep != []
    ensures |r| <= |s| && r == s[..|r|]
    decreases |s|
  {
    if |s| < |sep| then s
    else if s[..|sep|] == sep then []
    else [s[0]] + BeforeFirst(s[1..], sep)
  }

  /**
   * When `sep` first occurs at index `i`, the part before it is `s[..i]`.
   */
  lemma {:induction false} BeforeFirstAt(s: string, sep: string, i: nat)
    requires sep != []
    requires OccursAt(s, sep, i)
    requires forall j: nat :: j < i ==> !OccursAt(s, sep, j)
    ensures BeforeFirst(s, sep) == s[..i]
    decreases i
  {
    if i == 0 {
      assert s[..|sep|] == sep;
    } else {
      assert !OccursAt(s, sep, 0);
      assert s[1..][i - 1..i - 1 + |sep|] == s[i..i + |sep|];
      forall j: nat | j < i - 1 ensures !OccursAt(s[1..], sep, j) {
        assert !OccursAt(s, sep, j + 1);
        assert s[1..][j..j + |sep|] == s[j + 1..j + 1 + |sep|];
      }
      BeforeFirstAt(s[1..], sep, i - 1);
      assert s[..i] == [s[0]] + s[1..][..i - 1];
    }
  }

  /** When `sep` does not occur, the whole string is the first piece. */
  lemma {:induction false} BeforeFirstAbsent(s: string, sep: string)
    requires sep != []
    requires !Contains(s, sep)
    ensures BeforeFirst(s, sep) == s
    decreases |s|
  {
    if |s| >= |sep| {
      if s[..|sep|] == sep {
        assert OccursAt(s, sep, 0);
        assert false;
      }
      forall i: nat | OccursAt(s[1..], sep, i) ensures OccursAt(s, sep, i + 1) {
        assert s[i + 1..i + 1 + |sep|] == s[1..][i..i + |sep|];
      }
      BeforeFirstAbsent(s[1..], sep);
    }
  }

  /** `s` without a trailing `suffix`, or `s` itself when it does not end so. */
  function StripSuffix(s: string, suffix: string): (r: string)
    ensures EndsWith(s, suffix) ==> r + suffix == s
    ensures !EndsWith(s, suffix) ==> r == s
  {
    if EndsWith(s, suffix) then s[..|s| - |suffix|] else s
  }

  /** The pieces that are neither empty nor ".", as pathlib keeps them. */
  function PathParts(pieces: seq<string>): (r: seq<string>)
    ensures forall i :: 0 <= i < |r| ==> r[i] != [] && r[i] != "."
  {
    if pieces == [] then []
    else
      var keep := PathParts(pieces[..|pieces| - 1]);
      var last := pieces[|pieces| - 1];
      if last == [] || last == "." then keep else keep + [last]
  }

  /**
   * pathlib's `Path(p).name` on POSIX: the last component after empty and
   * "." components are dropped, or the empty string when none is left.
   */
  function PathName(p: string): (r: string)
    ensures '/' !in r
  {
    var parts := PathParts(SplitOn(p, '/'));
    if parts == [] then [] else
      assert parts[|parts| - 1] in parts;
      PathNameOfPiece(SplitOn(p, '/'), parts[|parts| - 1]);
      parts[|parts| - 1]
  }

  lemma PathNameOfPiece(pieces: seq<string>, x: string)
    requires forall i :: 0 <= i < |pieces| ==> '/' !in pieces[i]
    requires x in PathParts(pieces)
    ensures '/' !in x
  {
    if pieces != [] {
      var last := pieces[|pieces| - 1];
      if x != last {
        PathNameOfPiece(pieces[..|pieces| - 1], x);
      }
    }
  }

  /** The name of `dir/file` is `file`, for a proper file name. */
  lemma PathNameOfChild(dir: string, file: string)
    requires file != [] && file != "." && '/' !in file
    ensures PathName(dir + "/" + file) == file
  {
    SplitOnAround(dir, '/', file);
    SplitOnNoSeparator(file, '/');
    var pieces := SplitOn(dir, '/') + [file];
    assert pieces[..|pieces| - 1] == SplitOn(dir, '/');
  }
}
