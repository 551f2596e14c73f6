/** The Python string primitives the core relies on: `str.strip`, the
    regular-expression class `\s`, `in` on strings, `split('\n')`,
    `'\n'.join` and `str.isdigit`. */
module Strings {

  /** The characters Python's `str.isspace()` (and so `strip()` and the
      regular-expression class `\s`) treats as whitespace: tab to carriage
      return, the four ASCII separators, space, and the Unicode spaces and
      line separators. */
  predicate IsSpace(c: char) {
    || ('\t' <= c <= '\r')
    || ('\U{001C}' <= c <= '\U{001F}')
    || c == ' '
    || c == '\U{0085}'
    || c == '\U{00A0}'
    || c == '\U{1680}'
    || ('\U{2000}' <= c <= '\U{200A}')
    || c == '\U{2028}'
    || c == '\U{2029}'
    || c == '\U{202F}'
    || c == '\U{205F}'
    || c == '\U{3000}'
  }

  /** No whitespace at either end. */
  predicate IsTrimmed(s: string) {
    |s| == 0 || (!IsSpace(s[0]) && !IsSpace(s[|s| - 1]))
  }

  predicate IsBlank(s: string) {
    forall k :: 0 <= k < |s| ==> IsSpace(s[k])
  }

  /** `s.lstrip()`: whitespace removed from the start. */
  function TrimStart(s: string): (r: string)
    ensures |r| <= |s|
    ensures |r| == 0 || !IsSpace(r[0])
  {
    if |s| > 0 && IsSpace(s[0]) then TrimStart(s[1..]) else s
  }

  /** `s.rstrip()`: whitespace removed from the end. */
  function TrimEnd(s: string): (r: string)
    ensures |r| <= |s|
    ensures |r| == 0 || (r[0] == s[0] && !IsSpace(r[|r| - 1]))
  {
    if |s| > 0 && IsSpace(s[|s| - 1]) then TrimEnd(s[..|s| - 1]) else s
  }

  /** `s.strip()`: whitespace removed from both ends. */
  function Strip(s: string): (r: string)
    ensures IsTrimmed(r)
    ensures |r| <= |s|
  {
    TrimEnd(TrimStart(s))
  }

  /** `lstrip` keeps a suffix and drops only whitespace. */
  lemma {:induction false} TrimStartSlice(s: string)
    ensures var n := |s| - |TrimStart(s)|;
      TrimStart(s) == s[n..] && IsBlank(s[..n])
  {
    if |s| > 0 && IsSpace(s[0]) {
      TrimStartSlice(s[1..]);
      var n := |s| - |TrimStart(s)|;
      assert s[1..][n - 1..] == s[n..];
      assert s[..n] == [s[0]] + s[1..][..n - 1];
    }
  }

  /** `rstrip` keeps a prefix and drops only whitespace. */
  lemma {:induction false} TrimEndSlice(s: string)
    ensures var n := |TrimEnd(s)|;
      TrimEnd(s) == s[..n] && IsBlank(s[n..])
  {
    if |s| > 0 && IsSpace(s[|s| - 1]) {
      var p := s[..|s| - 1];
      TrimEndSlice(p);
      var n := |TrimEnd(s)|;
      assert p[..n] == s[..n];
      assert s[n..] == p[n..] + [s[|s| - 1]];
    }
  }

  /** What `strip` removes is whitespace, and what it keeps is one slice of `s`. */
  lemma StripSlice(s: string)
    ensures var r := Strip(s); var i := |s| - |TrimStart(s)|;
      && i + |r| <= |s|
      && r == s[i..i + |r|]
      && IsBlank(s[..i])
      && IsBlank(s[i + |r|..])
  {
    var t := TrimStart(s);
    TrimStartSlice(s);
    TrimEndSlice(t);
    var r := Strip(s);
    var i := |s| - |t|;
    SliceOfSuffix(s, i, |r|);
  }

  lemma SliceOfSuffix(s: string, i: nat, j: nat)
    requires i + j <= |s|
    ensures s[i..][j..] == s[i + j..] && s[i..][..j] == s[i..i + j]
  {
  }

  /** A string that starts with a non-space keeps its first character. */
  lemma StripKeepsFirst(s: string)
    requires |s| > 0 && !IsSpace(s[0])
    ensures Strip(s) != [] && Strip(s)[0] == s[0]
  {
    assert TrimStart(s) == s;
    TrimEndSlice(s);
  }

  /** Stripping only removes characters: everything kept was in `s`. */
  lemma StripChars(s: string, c: char)
    requires c in Strip(s)
    ensures c in s
  {
    StripSlice(s);
    var i := |s| - |TrimStart(s)|;
    var r := Strip(s);
    var j :| 0 <= j < |r| && r[j] == c;
    assert s[i + j] == c;
  }

  /** `not s.strip()` holds exactly for the all-whitespace strings. */
  lemma {:induction false} StripEmptyIffBlank(s: string)
    ensures Strip(s) == [] <==> IsBlank(s)
  {
    var i := |s| - |TrimStart(s)|;
    StripSlice(s);
    if Strip(s) != [] {
      assert !IsSpace(Strip(s)[0]);
      assert Strip(s)[0] == s[i];
    }
  }

  /** Stripping a trimmed string changes nothing, so stripping is idempotent. */
  lemma StripTrimmed(s: string)
    requires IsTrimmed(s)
    ensures Strip(s) == s
  {
  }

  lemma StripIdempotent(s: string)
    ensures Strip(Strip(s)) == Strip(s)
  {
    StripTrimmed(Strip(s));
  }

  /** Python's `p in s` for strings: `p` occurs in `s` as a contiguous substring. */
  predicate Contains(s: string, p: string)
    decreases |s|
  {
    |p| <= |s| && (s[..|p|] == p || Contains(s[1..], p))
  }

  /** `p` occurs in `s` starting at index `i`. */
  predicate OccursAt(s: string, p: string, i: int) {
    0 <= i && i + |p| <= |s| && s[i..i + |p|] == p
  }

  /** `Contains` agrees with the positional definition of "substring of". */
  lemma {:induction false} ContainsIff(s: string, p: string)
    ensures Contains(s, p) <==> exists i :: OccursAt(s, p, i)
    decreases |s|
  {
    if |p| <= |s| && s[..|p|] == p {
      assert OccursAt(s, p, 0);
    } else if |p| <= |s| && |s| > 0 {
      ContainsIff(s[1..], p);
      if exists i :: OccursAt(s, p, i) {
        var i :| OccursAt(s, p, i);
        assert i != 0;
        assert OccursAt(s[1..], p, i - 1);
      }
      if Contains(s[1..], p) {
        var i :| OccursAt(s[1..], p, i);
        assert OccursAt(s, p, i + 1);
      }
    }
  }

  /** A string lacking the first character of `p` does not contain `p`. */
  lemma {:induction false} NotContainsFirst(s: string, p: string)
    requires |p| > 0 && p[0] !in s
    ensures !Contains(s, p)
    decreases |s|
  {
    if |p| <= |s| {
      assert s[..|p|][0] == s[0];
      NotContainsFirst(s[1..], p);
    }
  }

  /** A prefix without the first character of `p` cannot hold or begin an
      occurrence of `p`. */
  lemma {:induction false} ContainsSkip(x: string, y: string, p: string)
    requires |p| > 0 && p[0] !in x
    ensures Contains(x + y, p) <==> Contains(y, p)
    decreases |x|
  {
    if |x| > 0 {
      var s := x + y;
      assert s[1..] == x[1..] + y;
      ContainsSkip(x[1..], y, p);
      if |p| <= |s| {
        assert s[..|p|][0] == x[0];
      }
    } else {
      assert x + y == y;
    }
  }

  /** An occurrence at a known index witnesses `Contains`. */
  lemma ContainsAt(s: string, p: string, i: nat)
    requires OccursAt(s, p, i)
    ensures Contains(s, p)
  {
    ContainsIff(s, p);
  }

  /** `str.isdigit()` restricted to ASCII digits: non-empty and all digits. */
  predicate IsAsciiDigits(s: string) {
    |s| > 0 && forall k :: 0 <= k < |s| ==> '0' <= s[k] <= '9'
  }

  /** Python's `s.split(sep)` for a one-character separator: the pieces
      between separators, always at least one, none containing `sep`. */
  function SplitOn(s: string, sep: char): (r: seq<string>)
    ensures |r| >= 1
    ensures forall k :: 0 <= k < |r| ==> sep !in r[k]
  {
    if |s| == 0 then [[]]
    else
      var rest := SplitOn(s[1..], sep);
      if s[0] == sep then [[]] + rest
      else [[s[0]] + rest[0]] + rest[1..]
  }

  /** Python's `sep.join(ls)` for a one-character separator. */
  function JoinWith(ls: seq<string>, sep: char): string
  {
    if |ls| == 0 then []
    else if |ls| == 1 then ls[0]
    else ls[0] + [sep] + JoinWith(ls[1..], sep)
  }

  /** Joining the pieces of a split gives back the original string. */
  lemma {:induction false} JoinSplit(s: string, sep: char)
    ensures JoinWith(SplitOn(s, sep), sep) == s
  {
    if |s| > 0 {
      var rest := SplitOn(s[1..], sep);
      JoinSplit(s[1..], sep);
      if s[0] == sep {
        assert SplitOn(s, sep) == [[]] + rest;
        assert ([[]] + rest)[1..] == rest;
      } else {
        var r := [[s[0]] + rest[0]] + rest[1..];
        if |rest| == 1 {
          assert JoinWith(r, sep) == [s[0]] + rest[0];
        } else {
          assert r[1..] == rest[1..];
          assert JoinWith(r, sep) == [s[0]] + rest[0] + [sep] + JoinWith(rest[1..], sep);
          assert JoinWith(rest, sep) == rest[0] + [sep] + JoinWith(rest[1..], sep);
        }
        assert s == [s[0]] + s[1..];
      }
    }
  }

  /** A string without the separator splits into itself. */
  lemma {:induction false} SplitNoSep(s: string, sep: char)
    requires sep !in s
    ensures SplitOn(s, sep) == [s]
  {
    if |s| > 0 {
      SplitNoSep(s[1..], sep);
      assert [s[0]] + s[1..] == s;
    }
  }

  /** Splitting at a separator that follows a separator-free prefix. */
  lemma {:induction false} SplitAfter(a: string, b: string, sep: char)
    requires sep !in a
    ensures SplitOn(a + [sep] + b, sep) == [a] + SplitOn(b, sep)
    decreases |a|
  {
    if |a| == 0 {
      assert a + [sep] + b == [sep] + b;
      assert ([sep] + b)[1..] == b;
    } else {
      var s := a + [sep] + b;
      assert s[1..] == a[1..] + [sep] + b;
      SplitAfter(a[1..], b, sep);
      assert [a[0]] + a[1..] == a;
    }
  }

  /** Splitting at one separator splits the two sides independently. */
  lemma {:induction false} SplitAppend(a: string, b: string, sep: char)
    ensures SplitOn(a + [sep] + b, sep) == SplitOn(a, sep) + SplitOn(b, sep)
    decreases |a|
  {
    var s := a + [sep] + b;
    if |a| == 0 {
      assert s == [sep] + b;
      assert s[1..] == b;
    } else {
      assert s[0] == a[0];
      assert s[1..] == a[1..] + [sep] + b;
      SplitAppend(a[1..], b, sep);
      var r1 := SplitOn(a[1..], sep);
      var r2 := SplitOn(b, sep);
      if a[0] == sep {
        assert [[]] + (r1 + r2) == ([[]] + r1) + r2;
      } else {
        PieceCons(a[0], r1, r2);
      }
    }
  }

  lemma PieceCons(c: char, r1: seq<string>, r2: seq<string>)
    requires |r1| >= 1
    ensures [[c] + (r1 + r2)[0]] + (r1 + r2)[1..] == ([[c] + r1[0]] + r1[1..]) + r2
  {
    assert (r1 + r2)[1..] == r1[1..] + r2;
  }

  /** Splitting a join gives back the pieces, provided there is at least one
      piece and no piece contains the separator. */
  lemma {:induction false} SplitJoin(ls: seq<string>, sep: char)
    requires |ls| >= 1
    requires forall k :: 0 <= k < |ls| ==> sep !in ls[k]
    ensures SplitOn(JoinWith(ls, sep), sep) == ls
  {
    if |ls| == 1 {
      SplitNoSep(ls[0], sep);
    } else {
      SplitJoin(ls[1..], sep);
      SplitAfter(ls[0], JoinWith(ls[1..], sep), sep);
      assert [ls[0]] + ls[1..] == ls;
    }
  }
}
