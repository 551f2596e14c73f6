/** The caption normaliser `parse_vtt` (app.py:14-26): a WebVTT payload is
    reduced to its caption text, one line per distinct caption line, in the
    order each line was first seen. */
module Captions {
  import opened Wrappers
  import opened Strings

  /** No element occurs twice. */
  predicate Distinct<T(==)>(s: seq<T>) {
    forall j, k :: 0 <= j < k < |s| ==> s[j] != s[k]
  }

  /** A `>>` speaker-change marker starts at index `k` of `s`. */
  predicate MarkerAt(s: string, k: int)
    requires 0 <= k < |s| - 1
  {
    s[k] == '>' && s[k + 1] == '>'
  }

  /** No two adjacent `>` characters, so the pattern `>>\s*` has no match. */
  predicate MarkerFree(s: string) {
    forall k :: 0 <= k < |s| - 1 ==> !MarkerAt(s, k)
  }

  /** `re.sub(r'>>\s*', '', s)`: every `>>` is removed together with the
      whitespace run after it, scanning left to right without re-scanning
      what the removal brings together. */
  function RemoveMarkers(s: string): (r: string)
    ensures |r| <= |s|
    ensures MarkerFree(r)
    ensures |s| > 0 && s[0] != '>' ==> |r| > 0 && r[0] == s[0]
    decreases |s|
  {
    if |s| == 0 then []
    else if |s| >= 2 && s[0] == '>' && s[1] == '>' then
      assert MarkerAt(s, 0);
      RemoveMarkers(TrimStart(s[2..]))
    else
      var rest := RemoveMarkers(s[1..]);
      MarkerFreeCons(s[0], rest);
      [s[0]] + rest
  }

  /** The lines the filter at app.py:20 skips: blank after stripping, holding
      the `WEBVTT` header word or a `-->` cue timing, or digits only after
      stripping (a cue index). */
  predicate IsNoise(line: string) {
    || Strip(line) == []
    || Contains(line, "WEBVTT")
    || Contains(line, "-->")
    || IsAsciiDigits(Strip(line))
  }

  /** What a surviving caption line looks like. */
  predicate IsCaptionText(c: string) {
    c != [] && IsTrimmed(c) && MarkerFree(c)
  }

  lemma MarkerFreeSlice(s: string, i: nat, j: nat)
    requires i <= j <= |s| && MarkerFree(s)
    ensures MarkerFree(s[i..j])
  {
    var t := s[i..j];
    forall k | 0 <= k < |t| - 1 ensures !MarkerAt(t, k) {
      assert !MarkerAt(s, i + k);
      assert t[k] == s[i + k] && t[k + 1] == s[i + k + 1];
    }
  }

  /** Stripping keeps a string free of markers. */
  lemma StripMarkerFree(m: string)
    requires MarkerFree(m)
    ensures MarkerFree(Strip(m))
  {
    StripSlice(m);
    var i := |m| - |TrimStart(m)|;
    MarkerFreeSlice(m, i, i + |Strip(m)|);
  }

  lemma MarkerFreeTail(s: string)
    requires |s| > 0
    ensures MarkerFree(s) ==> MarkerFree(s[1..])
  {
    if MarkerFree(s) {
      var t := s[1..];
      forall k | 0 <= k < |t| - 1 ensures !MarkerAt(t, k) {
        assert !MarkerAt(s, k + 1);
      }
    }
  }

  /** Putting a character in front of a marker-free string keeps it free of
      markers unless both are `>`. */
  lemma MarkerFreeCons(c: char, t: string)
    requires MarkerFree(t) && (|t| == 0 || c != '>' || t[0] != '>')
    ensures MarkerFree([c] + t)
  {
    var s := [c] + t;
    forall k | 0 <= k < |s| - 1 ensures !MarkerAt(s, k) {
      if k > 0 {
        assert !MarkerAt(t, k - 1);
      }
    }
  }

  /** The contribution of one input line (app.py:20-23): nothing for a noise
      line, otherwise the line with its markers removed and then stripped,
      if anything is left. */
  function CleanLine(line: string): Option<string> {
    if IsNoise(line) then None
    else
      var c := Strip(RemoveMarkers(line));
      if c == [] then None else Some(c)
  }

  /** A noise line is dropped, and whatever survives cleaning is non-empty,
      stripped and free of markers. */
  lemma CleanLineShape(line: string)
    ensures IsNoise(line) ==> CleanLine(line) == None
    ensures CleanLine(line).Some? ==> IsCaptionText(CleanLine(line).value)
  {
    StripMarkerFree(RemoveMarkers(line));
  }

  /** A string without markers is left as it is. */
  lemma {:induction false} RemoveMarkersFixes(s: string)
    requires MarkerFree(s)
    ensures RemoveMarkers(s) == s
    decreases |s|
  {
    if |s| > 0 {
      if |s| >= 2 {
        assert !MarkerAt(s, 0);
      }
      MarkerFreeTail(s);
      RemoveMarkersFixes(s[1..]);
      assert [s[0]] + s[1..] == s;
    }
  }

  /** Removing markers only removes characters. */
  lemma {:induction false} RemoveMarkersChars(s: string, c: char)
    requires c in RemoveMarkers(s)
    ensures c in s
    decreases |s|
  {
    if |s| >= 2 && s[0] == '>' && s[1] == '>' {
      var t := TrimStart(s[2..]);
      RemoveMarkersChars(t, c);
      TrimStartSlice(s[2..]);
      assert t == s[|s| - |t|..];
    } else if |s| > 0 && c != s[0] {
      RemoveMarkersChars(s[1..], c);
    }
  }

  /** Cleaning never introduces a character, in particular no line break. */
  lemma CleanLineChars(line: string, c: char)
    requires CleanLine(line).Some? && c in CleanLine(line).value
    ensures c in line
  {
    var m := RemoveMarkers(line);
    StripChars(m, c);
    RemoveMarkersChars(line, c);
  }

  /** A line that is already clean caption text is kept unchanged. */
  lemma CleanLineFixes(line: string)
    requires !IsNoise(line) && IsCaptionText(line)
    ensures CleanLine(line) == Some(line)
  {
    RemoveMarkersFixes(line);
    StripTrimmed(line);
  }

  /** The loop at app.py:19-25 from a given `seen` set on, for any per-line
      cleaning step: each line's cleaned form is appended the first time it
      is met. */
  function Collect(lines: seq<string>, seen: set<string>, clean: string -> Option<string>): (r: seq<string>)
    ensures Distinct(r)
    ensures forall k :: 0 <= k < |r| ==> r[k] !in seen
  {
    if |lines| == 0 then []
    else
      match clean(lines[0])
      case Some(c) =>
        if c in seen then Collect(lines[1..], seen, clean)
        else [c] + Collect(lines[1..], seen + {c}, clean)
      case None => Collect(lines[1..], seen, clean)
  }

  /** The payload's lines: `vtt_content.strip().split('\n')`. */
  function Lines(content: string): (r: seq<string>)
    ensures forall i :: 0 <= i < |r| ==> '\n' !in r[i]
  {
    SplitOn(Strip(content), '\n')
  }

  /** The lines of the transcript, before joining. */
  function TranscriptLines(content: string): (r: seq<string>)
    ensures Distinct(r)
    ensures forall k :: 0 <= k < |r| ==> IsCaptionText(r[k]) && '\n' !in r[k]
  {
    TranscriptLinesShape(Lines(content));
    Collect(Lines(content), {}, CleanLine)
  }

  /** `parse_vtt` (app.py:14-26). */
  function ParseVtt(content: string): string {
    JoinWith(TranscriptLines(content), '\n')
  }

  // ---------------------------------------------------------------------
  // An independent description of the result: the cleaned lines, and the
  // first occurrence of each of them.

  /** The cleaned form of every line that is not dropped, duplicates kept. */
  function Cleaned(lines: seq<string>, clean: string -> Option<string>): seq<string> {
    if |lines| == 0 then []
    else
      (match clean(lines[0]) case Some(c) => [c] case None => [])
      + Cleaned(lines[1..], clean)
  }

  /** The elements of `cs` that do not occur earlier in `cs`, in order:
      `cs[i]` is kept exactly when `cs[i] !in cs[..i]`. */
  function Unique<T(==)>(cs: seq<T>): seq<T> {
    if |cs| == 0 then []
    else
      var p := cs[..|cs| - 1];
      Unique(p) + (if cs[|cs| - 1] in p then [] else [cs[|cs| - 1]])
  }

  lemma {:induction false} UniqueMembers<T>(cs: seq<T>, x: T)
    ensures x in Unique(cs) <==> x in cs
  {
    if |cs| > 0 {
      var p := cs[..|cs| - 1];
      UniqueMembers(p, x);
      assert cs == p + [cs[|cs| - 1]];
    }
  }

  /** `Unique` never repeats an element. */
  lemma {:induction false} UniqueDistinct<T>(cs: seq<T>)
    ensures Distinct(Unique(cs))
  {
    if |cs| > 0 {
      var p := cs[..|cs| - 1];
      UniqueDistinct(p);
      var u := Unique(p);
      if cs[|cs| - 1] !in p {
        forall j | 0 <= j < |u| ensures u[j] != cs[|cs| - 1] {
          UniqueMembers(p, u[j]);
        }
        assert Unique(cs) == u + [cs[|cs| - 1]];
      } else {
        assert Unique(cs) == u;
      }
    }
  }

  lemma {:induction false} CleanedAppend(a: seq<string>, b: seq<string>, clean: string -> Option<string>)
    ensures Cleaned(a + b, clean) == Cleaned(a, clean) + Cleaned(b, clean)
  {
    if |a| > 0 {
      CleanedAppend(a[1..], b, clean);
      assert (a + b)[1..] == a[1..] + b;
    } else {
      assert a + b == b;
    }
  }

  /** A line appears among the cleaned lines exactly when some input line
      cleans to it. */
  lemma {:induction false} CleanedMembers(lines: seq<string>, clean: string -> Option<string>, c: string)
    ensures c in Cleaned(lines, clean) <==> exists i :: 0 <= i < |lines| && clean(lines[i]) == Some(c)
  {
    if |lines| > 0 {
      CleanedMembers(lines[1..], clean, c);
      if exists i :: 0 <= i < |lines| && clean(lines[i]) == Some(c) {
        var i :| 0 <= i < |lines| && clean(lines[i]) == Some(c);
        if i > 0 {
          assert clean(lines[1..][i - 1]) == Some(c);
        }
      }
      if exists i :: 0 <= i < |lines[1..]| && clean(lines[1..][i]) == Some(c) {
        var i :| 0 <= i < |lines[1..]| && clean(lines[1..][i]) == Some(c);
        assert clean(lines[i + 1]) == Some(c);
      }
    }
  }

  /** Appending a line to the loop's input appends at most its cleaned form. */
  lemma {:induction false} CollectSnoc(lines: seq<string>, l: string, seen: set<string>, clean: string -> Option<string>)
    ensures Collect(lines + [l], seen, clean) ==
      Collect(lines, seen, clean) +
      (match clean(l)
       case Some(c) => if c in seen || c in Cleaned(lines, clean) then [] else [c]
       case None => [])
    decreases |lines|
  {
    if |lines| == 0 {
      assert ([l])[1..] == [];
    } else {
      assert (lines + [l])[1..] == lines[1..] + [l];
      match clean(lines[0])
      case Some(c) =>
        if c in seen {
          CollectSnoc(lines[1..], l, seen, clean);
        } else {
          CollectSnoc(lines[1..], l, seen + {c}, clean);
        }
      case None =>
        CollectSnoc(lines[1..], l, seen, clean);
    }
  }

  /** The loop keeps exactly the first occurrence of every cleaned line. */
  lemma {:induction false} CollectIsUnique(lines: seq<string>, clean: string -> Option<string>)
    ensures Collect(lines, {}, clean) == Unique(Cleaned(lines, clean))
  {
    if |lines| > 0 {
      var p := lines[..|lines| - 1];
      var l := lines[|lines| - 1];
      assert lines == p + [l];
      CollectIsUnique(p, clean);
      CollectSnoc(p, l, {}, clean);
      CleanedAppend(p, [l], clean);
      assert [l][1..] == [];
      var cs := Cleaned(lines, clean);
      match clean(l)
      case Some(c) =>
        assert cs == Cleaned(p, clean) + [c];
        assert cs[..|cs| - 1] == Cleaned(p, clean);
      case None =>
        assert cs == Cleaned(p, clean);
    }
  }

  /** Every line the loop emits is the cleaned form of some input line. */
  lemma CollectMembers(lines: seq<string>, clean: string -> Option<string>, c: string)
    ensures c in Collect(lines, {}, clean) <==> exists i :: 0 <= i < |lines| && clean(lines[i]) == Some(c)
  {
    CollectIsUnique(lines, clean);
    UniqueMembers(Cleaned(lines, clean), c);
    CleanedMembers(lines, clean, c);
  }

  /** The transcript's lines are cleaned caption lines without newlines. */
  lemma TranscriptLinesShape(lines: seq<string>)
    requires forall i :: 0 <= i < |lines| ==> '\n' !in lines[i]
    ensures forall k :: 0 <= k < |Collect(lines, {}, CleanLine)| ==>
      IsCaptionText(Collect(lines, {}, CleanLine)[k]) && '\n' !in Collect(lines, {}, CleanLine)[k]
  {
    var r := Collect(lines, {}, CleanLine);
    forall k | 0 <= k < |r| ensures IsCaptionText(r[k]) && '\n' !in r[k] {
      CollectMembers(lines, CleanLine, r[k]);
      var i :| 0 <= i < |lines| && CleanLine(lines[i]) == Some(r[k]);
      CleanLineShape(lines[i]);
      if '\n' in r[k] {
        CleanLineChars(lines[i], '\n');
      }
    }
  }

  /** The normaliser's contract: the transcript's lines are the first
      occurrences of the cleaned input lines, in input order (so pairwise
      distinct); a line appears exactly when some input line cleans to it;
      and a non-empty transcript splits back into these lines. */
  lemma ParseVttSpec(content: string)
    ensures TranscriptLines(content) == Unique(Cleaned(Lines(content), CleanLine))
    ensures forall c :: c in TranscriptLines(content) <==>
      exists i :: 0 <= i < |Lines(content)| && CleanLine(Lines(content)[i]) == Some(c)
    ensures |TranscriptLines(content)| > 0 ==>
      SplitOn(ParseVtt(content), '\n') == TranscriptLines(content)
  {
    CollectIsUnique(Lines(content), CleanLine);
    forall c ensures c in TranscriptLines(content) <==>
      exists i :: 0 <= i < |Lines(content)| && CleanLine(Lines(content)[i]) == Some(c)
    {
      CollectMembers(Lines(content), CleanLine, c);
    }
    if |TranscriptLines(content)| > 0 {
      SplitJoin(TranscriptLines(content), '\n');
    }
  }

  /** A line the cleaning step drops contributes nothing wherever it stands. */
  lemma DroppedLine(pre: seq<string>, line: string, post: seq<string>, clean: string -> Option<string>)
    requires clean(line) == None
    ensures Collect(pre + [line] + post, {}, clean) == Collect(pre + post, {}, clean)
  {
    CollectIsUnique(pre + [line] + post, clean);
    CollectIsUnique(pre + post, clean);
    CleanedAppend(pre + [line], post, clean);
    CleanedAppend(pre, [line], clean);
    CleanedAppend(pre, post, clean);
    assert Cleaned([line], clean) == [] by {
      assert [line][1..] == [];
    }
    assert Cleaned(pre + [line], clean) == Cleaned(pre, clean);
    assert Cleaned(pre + [line] + post, clean) == Cleaned(pre + post, clean);
  }

  /** A noise line (blank, header, cue timing or cue index) contributes
      nothing to the transcript wherever it stands. */
  lemma NoiseContributesNothing(pre: seq<string>, line: string, post: seq<string>)
    requires IsNoise(line)
    ensures Collect(pre + [line] + post, {}, CleanLine) == Collect(pre + post, {}, CleanLine)
  {
    DroppedLine(pre, line, post, CleanLine);
  }

  // ---------------------------------------------------------------------
  // Worked examples.

  /** Text that the normaliser passes through unchanged. */
  predicate IsPlainCaption(c: string) {
    !IsNoise(c) && IsCaptionText(c) && '\n' !in c
  }

  /** A payload of plain caption lines splits back into those lines. */
  lemma PlainLines(ls: seq<string>)
    requires |ls| >= 1
    requires forall k :: 0 <= k < |ls| ==> '\n' !in ls[k]
    requires IsTrimmed(ls[0]) && ls[0] != [] && IsTrimmed(ls[|ls| - 1]) && ls[|ls| - 1] != []
    ensures Lines(JoinWith(ls, '\n')) == ls
  {
    JoinEnds(ls);
    StripTrimmed(JoinWith(ls, '\n'));
    SplitJoin(ls, '\n');
  }

  /** A join starts with its first piece's first character and ends with its
      last piece's last character. */
  lemma {:induction false} JoinEnds(ls: seq<string>)
    requires |ls| >= 1 && ls[0] != [] && ls[|ls| - 1] != []
    ensures var j := JoinWith(ls, '\n');
      |j| > 0 && j[0] == ls[0][0] && j[|j| - 1] == ls[|ls| - 1][|ls[|ls| - 1]| - 1]
  {
    JoinLast(ls);
  }

  lemma {:induction false} JoinLast(ls: seq<string>)
    requires |ls| >= 1 && ls[|ls| - 1] != []
    ensures var j := JoinWith(ls, '\n');
      |j| > 0 && j[|j| - 1] == ls[|ls| - 1][|ls[|ls| - 1]| - 1]
  {
    if |ls| > 1 {
      JoinLast(ls[1..]);
    }
  }

  /** The loop drops the second copy of a line that cleans to itself. */
  lemma CollectRepeat(a: string, b: string, clean: string -> Option<string>)
    requires clean(a) == Some(a) && clean(b) == Some(b) && a != b
    ensures Collect([a, b, a], {}, clean) == [a, b]
  {
    assert [a][1..] == [];
    assert Collect([a], {} + {a} + {b}, clean) == [];
    assert [b, a][1..] == [a];
    assert Collect([b, a], {} + {a}, clean) == [b];
    assert [a, b, a][1..] == [b, a];
  }

  /** A non-adjacent repeat is dropped: lines `a`, `b`, `a` give `a` and `b`. */
  lemma RepeatDropped(a: string, b: string)
    requires IsPlainCaption(a) && IsPlainCaption(b) && a != b
    ensures ParseVtt(JoinWith([a, b, a], '\n')) == JoinWith([a, b], '\n')
  {
    var content := JoinWith([a, b, a], '\n');
    RepeatLines(a, b);
    CleanLineFixes(a);
    CleanLineFixes(b);
    CollectRepeat(a, b, CleanLine);
    assert TranscriptLines(content) == [a, b];
  }

  lemma RepeatLines(a: string, b: string)
    requires IsCaptionText(a) && IsCaptionText(b) && '\n' !in a && '\n' !in b
    ensures Lines(JoinWith([a, b, a], '\n')) == [a, b, a]
  {
    PlainLines([a, b, a]);
  }

  /** A string `c` with no whitespace at its start loses nothing to the
      whitespace run after a marker. */
  lemma TrimStartTrimmed(c: string)
    requires |c| == 0 || !IsSpace(c[0])
    ensures TrimStart(c) == c
  {
  }

  /** Markers are removed wherever they stand, not only at the start of a
      line, and the whitespace run after each goes with it. */
  lemma MarkerInside(u: string, w: string)
    requires MarkerFree(u) && (|u| == 0 || u[|u| - 1] != '>')
    ensures RemoveMarkers(u + ">>" + w) == u + RemoveMarkers(TrimStart(w))
  {
    assert u + ">>" + w == u + (">>" + w);
    RemoveMarkersAfterFree(u, ">>" + w);
    RemoveMarkersAtMarker(w);
  }

  /** A leading marker goes together with the whitespace after it. */
  lemma RemoveMarkersAtMarker(w: string)
    ensures RemoveMarkers(">>" + w) == RemoveMarkers(TrimStart(w))
  {
    assert (">>" + w)[2..] == w;
  }

  /** A marker-free prefix that does not end in `>` passes through
      unchanged, whatever follows it. */
  lemma {:induction false} RemoveMarkersAfterFree(u: string, m: string)
    requires MarkerFree(u) && (|u| == 0 || u[|u| - 1] != '>')
    ensures RemoveMarkers(u + m) == u + RemoveMarkers(m)
    decreases |u|
  {
    if |u| == 0 {
      assert u + m == m;
    } else {
      var t := u[1..] + m;
      FreePrefixHead(u, m);
      RemoveMarkersPrepend(u[0], t);
      RemoveMarkersAfterFree(u[1..], m);
      assert [u[0]] + (u[1..] + RemoveMarkers(m)) == u + RemoveMarkers(m);
    }
  }

  lemma FreePrefixHead(u: string, m: string)
    requires |u| > 0 && MarkerFree(u) && u[|u| - 1] != '>'
    ensures var t := u[1..] + m; u + m == [u[0]] + t && (u[0] != '>' || |t| == 0 || t[0] != '>')
    ensures MarkerFree(u[1..]) && (|u| == 1 || u[1..][|u| - 2] != '>')
  {
    if |u| >= 2 {
      assert !MarkerAt(u, 0);
    }
    MarkerFreeTail(u);
  }

  /** Away from a marker, the first character is kept. */
  lemma RemoveMarkersPrepend(c: char, t: string)
    requires c != '>' || |t| == 0 || t[0] != '>'
    ensures RemoveMarkers([c] + t) == [c] + RemoveMarkers(t)
  {
    assert ([c] + t)[1..] == t;
  }

  /** A speaker-change marker in front of caption text is removed with the
      space after it. */
  lemma SpeakerMarkerRemoved(a: string)
    requires IsPlainCaption(a)
    ensures CleanLine(">> " + a) == Some(a)
  {
    SpeakerLineMarkers(a);
    SpeakerLineNotNoise(a);
    StripTrimmed(a);
  }

  lemma SpeakerLineMarkers(a: string)
    requires IsCaptionText(a)
    ensures RemoveMarkers(">> " + a) == a
  {
    assert ">> " + a == [] + ">>" + (" " + a);
    MarkerInside([], " " + a);
    assert (" " + a)[1..] == a;
    TrimStartTrimmed(a);
    assert TrimStart(" " + a) == a;
    RemoveMarkersFixes(a);
  }

  /** A line that opens with a marker is not noise unless its text is. */
  lemma SpeakerLineNotNoise(a: string)
    requires IsPlainCaption(a)
    ensures !IsNoise(">> " + a)
  {
    StripKeepsFirst(">> " + a);
    SpeakerLineWords(a);
  }

  lemma SpeakerLineWords(a: string)
    requires !Contains(a, "WEBVTT") && !Contains(a, "-->")
    ensures !Contains(">> " + a, "WEBVTT") && !Contains(">> " + a, "-->")
  {
    ContainsSkip(">> ", a, "WEBVTT");
    ContainsSkip(">> ", a, "-->");
  }


  /** The normaliser is a fixed point on distinct plain caption lines. */
  lemma {:induction false} CollectKeepsAll(ls: seq<string>, seen: set<string>, clean: string -> Option<string>)
    requires Distinct(ls)
    requires forall k :: 0 <= k < |ls| ==> clean(ls[k]) == Some(ls[k]) && ls[k] !in seen
    ensures Collect(ls, seen, clean) == ls
  {
    if |ls| > 0 {
      CollectKeepsAll(ls[1..], seen + {ls[0]}, clean);
      assert [ls[0]] + ls[1..] == ls;
    }
  }

  /** Normalising an already normalised transcript of plain lines changes
      nothing. */
  lemma ParseVttFixpoint(ls: seq<string>)
    requires Distinct(ls)
    requires forall k :: 0 <= k < |ls| ==> IsPlainCaption(ls[k])
    ensures ParseVtt(JoinWith(ls, '\n')) == JoinWith(ls, '\n')
  {
    if |ls| == 0 {
      ParseVttEmpty();
    } else {
      TranscriptOfPlain(ls);
    }
  }

  lemma TranscriptOfPlain(ls: seq<string>)
    requires |ls| > 0 && Distinct(ls)
    requires forall k :: 0 <= k < |ls| ==> IsPlainCaption(ls[k])
    ensures TranscriptLines(JoinWith(ls, '\n')) == ls
  {
    PlainLines(ls);
    forall k | 0 <= k < |ls| ensures CleanLine(ls[k]) == Some(ls[k]) {
      CleanLineFixes(ls[k]);
    }
    CollectKeepsAll(ls, {}, CleanLine);
  }

  /** An empty payload gives an empty transcript. */
  lemma ParseVttEmpty()
    ensures ParseVtt([]) == []
  {
    assert Lines([]) == [[]];
    assert IsNoise([]);
    var empty: seq<string> := [[]];
    assert empty[1..] == [];
    assert TranscriptLines([]) == [];
  }

  /** `parse_vtt` is idempotent whenever none of its output lines would
      itself be dropped as noise. */
  lemma ParseVttIdempotentWhenQuiet(content: string)
    requires forall k :: 0 <= k < |TranscriptLines(content)| ==> !IsNoise(TranscriptLines(content)[k])
    ensures ParseVtt(ParseVtt(content)) == ParseVtt(content)
  {
    var ls := TranscriptLines(content);
    ParseVttFixpoint(ls);
  }

  /** Without that condition idempotence fails: removing the marker from
      `1>>2` leaves the cue-index-like `12`, which a second pass drops. */
  lemma NotIdempotent()
    ensures ParseVtt("1>>2") == "12"
    ensures ParseVtt("12") == ""
  {
    MarkerJoinsDigits();
    DigitsDropped();
  }

  lemma MarkerJoinsDigits()
    ensures ParseVtt("1>>2") == "12"
  {
    CleanJoinsDigits();
    SplitNoSep("1>>2", '\n');
    assert ["1>>2"][1..] == [];
    assert TranscriptLines("1>>2") == ["12"];
  }

  lemma CleanJoinsDigits()
    ensures CleanLine("1>>2") == Some("12")
  {
    StripTrimmed("1>>2");
    NotContainsFirst("1>>2", "-->");
    RemoveMarkersAtMarker("2");
    assert TrimStart("2") == "2";
    RemoveMarkersPrepend('1', ">>2");
    assert RemoveMarkers("1>>2") == "12";
    StripTrimmed("12");
  }


  lemma DigitsDropped()
    ensures ParseVtt("12") == ""
  {
    StripTrimmed("12");
    SplitNoSep("12", '\n');
    assert CleanLine("12") == None;
    assert ["12"][1..] == [];
    assert TranscriptLines("12") == [];
  }
}
