/** The filename sanitiser `sanitize_filename` (app.py:28-30): characters
    that are not allowed in file names are removed, the rest is stripped,
    and a long result is cut to 150 characters followed by `...`. */
module Filenames {
  import opened Strings

  /** Longest sanitised title kept in full. */
  const MaxTitle: nat := 150

  /** What a cut title ends with. */
  const Ellipsis: string := "..."

  /** The regular-expression character class at app.py:29: backslash,
      slash, star, question mark, colon, double quote, angle brackets and
      vertical bar. */
  predicate IsForbidden(c: char) {
    c == '\\' || c == '/' || c == '*' || c == '?' || c == ':' || c == '\"'
    || c == '<' || c == '>' || c == '|'
  }

  predicate NoForbidden(s: string) {
    forall k :: 0 <= k < |s| ==> !IsForbidden(s[k])
  }

  /** The `re.sub` of app.py:29: every forbidden character removed,
      everything else kept in order. */
  function DropForbidden(s: string): (r: string)
    ensures |r| <= |s|
    ensures NoForbidden(r)
    ensures forall c :: c in r <==> c in s && !IsForbidden(c)
  {
    if |s| == 0 then []
    else if IsForbidden(s[0]) then DropForbidden(s[1..])
    else [s[0]] + DropForbidden(s[1..])
  }

  /** `sanitize_filename` (app.py:28-30). */
  function Sanitize(name: string): (r: string)
    ensures NoForbidden(r)
    ensures |r| <= MaxTitle + |Ellipsis|
  {
    var s := Strip(DropForbidden(name));
    StripNoForbidden(DropForbidden(name));
    SliceNoForbidden(s, MaxTitle);
    if |s| > MaxTitle then s[..MaxTitle] + Ellipsis else s
  }

  lemma SliceNoForbidden(s: string, n: nat)
    requires NoForbidden(s)
    ensures n <= |s| ==> NoForbidden(s[..n])
  {
    if n <= |s| {
      forall k | 0 <= k < n ensures !IsForbidden(s[..n][k]) {
        assert s[..n][k] == s[k];
      }
    }
  }

  /** Stripping a string without forbidden characters leaves none. */
  lemma StripNoForbidden(s: string)
    requires NoForbidden(s)
    ensures NoForbidden(Strip(s))
  {
    StripSlice(s);
    var i := |s| - |TrimStart(s)|;
    var r := Strip(s);
    forall k | 0 <= k < |r| ensures !IsForbidden(r[k]) {
      assert r[k] == s[i + k];
    }
  }

  /** Removing forbidden characters commutes with concatenation, so it
      works character by character. */
  lemma {:induction false} DropForbiddenAppend(a: string, b: string)
    ensures DropForbidden(a + b) == DropForbidden(a) + DropForbidden(b)
  {
    if |a| > 0 {
      assert (a + b)[1..] == a[1..] + b;
      DropForbiddenAppend(a[1..], b);
    } else {
      assert a + b == b;
    }
  }

  /** A string without forbidden characters is left as it is. */
  lemma {:induction false} DropForbiddenFixes(s: string)
    requires NoForbidden(s)
    ensures DropForbidden(s) == s
  {
    if |s| > 0 {
      assert !IsForbidden(s[0]);
      DropForbiddenFixes(s[1..]);
      assert [s[0]] + s[1..] == s;
    }
  }

  /** The title that is kept or cut: the name without forbidden characters,
      stripped. */
  function CleanTitle(name: string): string {
    Strip(DropForbidden(name))
  }

  /** The sanitiser's contract: a title of at most 150 characters after
      cleaning is kept exactly; a longer one keeps its first 150 characters
      and gains `...`. Every character of the result other than that
      ellipsis comes from the name. */
  lemma SanitizeShape(name: string)
    ensures var s := CleanTitle(name);
      && (|s| <= MaxTitle ==> Sanitize(name) == s)
      && (|s| > MaxTitle ==> Sanitize(name) == s[..MaxTitle] + Ellipsis && |Sanitize(name)| == MaxTitle + |Ellipsis|)
    ensures forall c :: c in Sanitize(name) ==> c == '.' || (c in name && !IsForbidden(c))
  {
    var s := CleanTitle(name);
    var r := Sanitize(name);
    forall c | c in r ensures c == '.' || (c in name && !IsForbidden(c)) {
      var k :| 0 <= k < |r| && r[k] == c;
      if |s| <= MaxTitle || k < MaxTitle {
        assert c == s[k];
        StripChars(DropForbidden(name), c);
      }
    }
  }

  /** A result of at most 150 characters is already clean. */
  lemma SanitizeShort(s: string)
    requires IsTrimmed(s) && NoForbidden(s) && |s| <= MaxTitle
    ensures Sanitize(s) == s
  {
    DropForbiddenFixes(s);
    StripTrimmed(s);
  }

  /** A cut result is cut again to itself. */
  lemma SanitizeLong(s: string)
    requires |s| > MaxTitle && IsTrimmed(s) && NoForbidden(s)
    ensures Sanitize(s[..MaxTitle] + Ellipsis) == s[..MaxTitle] + Ellipsis
  {
    var r := s[..MaxTitle] + Ellipsis;
    SliceNoForbidden(s, MaxTitle);
    assert NoForbidden(r) by {
      forall k | 0 <= k < |r| ensures !IsForbidden(r[k]) {
        if k < MaxTitle {
          assert r[k] == s[..MaxTitle][k];
        }
      }
    }
    DropForbiddenFixes(r);
    assert r[0] == s[0] && r[|r| - 1] == '.';
    StripTrimmed(r);
    assert r[..MaxTitle] == s[..MaxTitle];
  }

  /** Sanitising twice is sanitising once. */
  lemma SanitizeIdempotent(name: string)
    ensures Sanitize(Sanitize(name)) == Sanitize(name)
  {
    var s := CleanTitle(name);
    StripNoForbidden(DropForbidden(name));
    if |s| > MaxTitle {
      SanitizeLong(s);
    } else {
      SanitizeShort(s);
    }
  }
}
