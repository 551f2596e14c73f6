/** The page's batch logic (app.py:98-122): the pasted text is split into
    URLs, every URL is processed, and each result is shown either as a
    download or as a failure with its reason. */
module Batch {
  import opened Wrappers
  import opened Strings
  import opened Filenames
  import opened Captions
  import opened Extraction

  /** The stripped form of each line that is not blank, in order. */
  function NonBlank(lines: seq<string>): (r: seq<string>)
    ensures |r| <= |lines|
    ensures forall k :: 0 <= k < |r| ==> r[k] != [] && IsTrimmed(r[k])
  {
    if |lines| == 0 then []
    else
      var u := Strip(lines[0]);
      (if u == [] then [] else [u]) + NonBlank(lines[1..])
  }

  /** `[line.strip() for line in url_input.split("\n") if line.strip()]`
      (app.py:99). */
  function SplitUrls(input: string): (urls: seq<string>)
    ensures |urls| <= |SplitOn(input, '\n')|
    ensures forall k :: 0 <= k < |urls| ==> urls[k] != [] && IsTrimmed(urls[k])
  {
    NonBlank(SplitOn(input, '\n'))
  }

  lemma {:induction false} NonBlankAppend(a: seq<string>, b: seq<string>)
    ensures NonBlank(a + b) == NonBlank(a) + NonBlank(b)
  {
    if |a| > 0 {
      assert (a + b)[1..] == a[1..] + b;
      NonBlankAppend(a[1..], b);
    } else {
      assert a + b == b;
    }
  }

  /** Entries keep the order of their lines: the URLs of two blocks of text
      joined by a line break are those of the first block, then those of
      the second. */
  lemma SplitUrlsAppend(a: string, b: string)
    ensures SplitUrls(a + "\n" + b) == SplitUrls(a) + SplitUrls(b)
  {
    assert a + "\n" + b == a + ['\n'] + b;
    SplitAppend(a, b, '\n');
    NonBlankAppend(SplitOn(a, '\n'), SplitOn(b, '\n'));
  }

  /** A string is an entry exactly when it is the non-empty stripped form of
      some line. */
  lemma {:induction false} NonBlankMembers(lines: seq<string>, u: string)
    ensures u in NonBlank(lines) <==> u != [] && exists i :: 0 <= i < |lines| && Strip(lines[i]) == u
  {
    if |lines| > 0 {
      NonBlankMembers(lines[1..], u);
      if exists i :: 0 <= i < |lines| && Strip(lines[i]) == u {
        var i :| 0 <= i < |lines| && Strip(lines[i]) == u;
        if i > 0 {
          assert Strip(lines[1..][i - 1]) == u;
        }
      }
      if exists i :: 0 <= i < |lines[1..]| && Strip(lines[1..][i]) == u {
        var i :| 0 <= i < |lines[1..]| && Strip(lines[1..][i]) == u;
        assert Strip(lines[i + 1]) == u;
      }
    }
  }

  lemma {:induction false} NonBlankKeeps(ls: seq<string>)
    requires forall k :: 0 <= k < |ls| ==> ls[k] != [] && IsTrimmed(ls[k])
    ensures NonBlank(ls) == ls
  {
    if |ls| > 0 {
      StripTrimmed(ls[0]);
      NonBlankKeeps(ls[1..]);
      assert [ls[0]] + ls[1..] == ls;
    }
  }

  /** URLs written one per line come back as they were written. */
  lemma SplitUrlsJoin(urls: seq<string>)
    requires |urls| >= 1
    requires forall k :: 0 <= k < |urls| ==> urls[k] != [] && IsTrimmed(urls[k]) && '\n' !in urls[k]
    ensures SplitUrls(JoinWith(urls, '\n')) == urls
  {
    SplitJoin(urls, '\n');
    NonBlankKeeps(urls);
  }

  /** The condition at app.py:113: the transcript is text (always so in this
      model) and the file name is present and non-empty. */
  predicate IsSuccess(r: Report) {
    r.filename.Some? && r.filename.value != []
  }

  /** A returned report counts as a success exactly when every step of its
      call succeeded: the file name, when present, ends in `.txt` and so is
      never empty. */
  lemma SuccessIffAllSucceeded(url: string, ev: Events)
    requires ProcessUrl(url, ev).exit.Returned?
    ensures IsSuccess(ProcessUrl(url, ev).exit.report) <==> AllSucceeded(url, ev)
  {
    FilenameIffSuccess(url, ev);
    if AllSucceeded(url, ev) {
      var f := Sanitize(ev.title.value) + TranscriptSuffix;
      assert |f| >= |TranscriptSuffix|;
    }
  }

  /** One block of the results list (app.py:111-122). */
  datatype Row =
    | Download(url: string, transcript: string, filename: string)
    | Failure(url: string, reason: string)

  /** What the page shows after the button is pressed: a warning when no URL
      was entered, the exception when a call let one escape (it propagates
      out of `asyncio.gather` and `asyncio.run`), or one row per URL. */
  datatype Page = NothingEntered | Crashed | Rows(rows: seq<Row>)

  function RowFor(url: string, r: Report): Row {
    if IsSuccess(r) then Download(url, r.text, r.filename.value) else Failure(url, r.text)
  }

  /** The button handler (app.py:98-122); `events(i)` is what the browser
      does while the `i`-th URL is processed. */
  function Generate(input: string, events: nat -> Events): Page {
    var urls := SplitUrls(input);
    if |urls| == 0 then NothingEntered
    else
      var runs := seq(|urls|, i requires 0 <= i < |urls| => ProcessUrl(urls[i], events(i)));
      if exists i :: 0 <= i < |runs| && runs[i].exit.Escaped? then Crashed
      else Rows(seq(|urls|, i requires 0 <= i < |urls| => RowFor(urls[i], runs[i].exit.report)))
  }

  /** Every line strips to nothing. */
  predicate AllBlank(lines: seq<string>) {
    forall i :: 0 <= i < |lines| ==> Strip(lines[i]) == []
  }

  /** The warning is shown exactly when every line of the input is blank. */
  lemma NothingEnteredIffBlank(input: string, events: nat -> Events)
    ensures Generate(input, events) == NothingEntered <==> AllBlank(SplitOn(input, '\n'))
  {
    NoUrlsIffBlank(SplitOn(input, '\n'));
    NothingEnteredIffNoUrls(input, events);
  }

  lemma NothingEnteredIffNoUrls(input: string, events: nat -> Events)
    ensures Generate(input, events) == NothingEntered <==> SplitUrls(input) == []
  {
    if SplitUrls(input) != [] {
      assert Generate(input, events).Crashed? || Generate(input, events).Rows?;
    }
  }

  lemma NoUrlsIffBlank(lines: seq<string>)
    ensures NonBlank(lines) == [] <==> AllBlank(lines)
  {
    if NonBlank(lines) != [] {
      var u := NonBlank(lines)[0];
      NonBlankMembers(lines, u);
      var i :| 0 <= i < |lines| && Strip(lines[i]) == u;
      assert Strip(lines[i]) != [];
    } else if exists i :: 0 <= i < |lines| && Strip(lines[i]) != [] {
      var i :| 0 <= i < |lines| && Strip(lines[i]) != [];
      NonBlankMembers(lines, Strip(lines[i]));
    }
  }

  /** The page crashes exactly when some URL's call lets an exception
      escape; otherwise it shows one block per URL, in input order, each
      built from that URL's report. */
  lemma GenerateRows(input: string, events: nat -> Events)
    requires |SplitUrls(input)| > 0
    ensures var urls := SplitUrls(input);
      Generate(input, events) == Crashed <==>
        exists i :: 0 <= i < |urls| && ProcessUrl(urls[i], events(i)).exit.Escaped?
    ensures Generate(input, events) != Crashed ==> Generate(input, events).Rows?
    ensures var urls := SplitUrls(input);
      Generate(input, events).Rows? ==>
        && |Generate(input, events).rows| == |urls|
        && forall i :: 0 <= i < |urls| ==>
          Generate(input, events).rows[i] == RowFor(urls[i], ProcessUrl(urls[i], events(i)).exit.report)
  {
  }

  /** What each block shows: a block offers a download exactly when every
      step of its call succeeded, and then carries the normalised captions
      and the sanitised title with `.txt`; otherwise it shows the returned
      reason (app.py:122). */
  lemma GenerateBlocks(input: string, events: nat -> Events, i: nat)
    requires Generate(input, events).Rows? && i < |SplitUrls(input)|
    ensures var url := SplitUrls(input)[i];
      var ev := events(i);
      var row := Generate(input, events).rows[i];
      && row.url == url
      && (row.Download? <==> AllSucceeded(url, ev))
      && (row.Download? ==>
            row.transcript == ParseVtt(CaptureResult(ev).body)
            && row.filename == Sanitize(ev.title.value) + TranscriptSuffix)
      && (row.Failure? ==> row.reason == ProcessUrl(url, ev).exit.report.text)
  {
    var urls := SplitUrls(input);
    GenerateRows(input, events);
    assert !ProcessUrl(urls[i], events(i)).exit.Escaped?;
    SuccessIffAllSucceeded(urls[i], events(i));
    FilenameIffSuccess(urls[i], events(i));
  }
}
