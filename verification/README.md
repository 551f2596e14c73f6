# City video transcript extractor — a Dafny model of its core

The application takes a list of meeting-video URLs from Granicus or Viebit
players. For each URL it:

- opens the page in a headless browser;
- clicks through the player's menus so that the captions are switched on;
- catches the first network response whose URL contains `.vtt` (a WebVTT
  caption file);
- reduces that file to plain transcript text.

The page then shows, per URL, either a download of the transcript or the
reason it failed.

This project models the logic of `app.py` as pure Dafny functions and
proves properties about them:

- `Strings` (strings.dfy) holds the Python string primitives the code relies
  on, written out: `strip` with Python's whitespace set, `in` on strings,
  `split('\n')`, `'\n'.join` and `isdigit`.
- `Captions` (captions.dfy) holds `parse_vtt`. It has three parts: the
  line filter, the removal of `>>` speaker markers, and the
  first-occurrence collection loop. An independent reference definition
  (`Unique(Cleaned(...))`) stands beside it.
- `Filenames` (filenames.dfy) holds `sanitize_filename`.
- `Recipes` (recipes.dfy) holds the URL dispatch. It also holds the two
  click recipes as data, and a driver that runs a recipe given the outcome
  of every awaited step.
- `Capture` (capture.dfy) holds the single-shot capture cell that
  `handle_response` settles. A reference definition says the same thing
  directly: the first caption response decides the cell.
- `Extraction` (extraction.dfy) holds `process_url`, as a function of what
  each awaited browser call gives. It covers the `try`/`except`/`finally`
  structure and the three ways a call can fail.
- `Batch` (batch.dfy) holds the button handler. It covers URL splitting,
  the concurrent processing of every URL, and the success test that picks
  between a download and an error message.

Here the model follows the code where a plain reading of the program's
purpose might expect something else:

- `parse_vtt` is not idempotent. Removing `>>` can join text into a line
  that a second pass drops as noise: `1>>2` gives `12`, and `12` gives the
  empty transcript (`Captions.NotIdempotent`). Idempotence holds only when
  no output line is itself noise (`Captions.ParseVttIdempotentWhenQuiet`).
- A response counts as a caption file when `.vtt` occurs anywhere in its
  URL, not only at the end.
- The URLs are processed concurrently with `asyncio.gather`, not one after
  another. An exception that escapes one `process_url` call ends the whole
  batch (`Batch.GenerateRows`). The exceptions that escape are:
  - a failure to launch the browser or to open a page, because both happen
    before the `try`;
  - a failure of `browser.close()` in the `finally`, which replaces the
    call's result.
- A click or hover that times out raises Playwright's own timeout error.
  That error is not `asyncio.TimeoutError`, so it is reported as
  `Error: …` (`Extraction.StepFailureIsError`). Only the 20-second
  caption wait produces `Timeout error`.
- An empty page title still gives the file name `.txt`, and that counts as
  a success.

## Model

| member | source | states |
|---|---|---|
| Strings.Strip | app.py:15 | `str.strip()` with Python's whitespace set: the result has no whitespace at either end and is no longer than the input; Strings.StripSlice shows it is the input with a blank prefix and a blank suffix cut off |
| Strings.StripSlice | app.py:15 | stripping keeps a contiguous middle part of the input and cuts off only whitespace on either side |
| Strings.Contains | app.py:20 | Python's `in` on strings; Strings.ContainsIff shows it holds exactly when the pattern occurs at some position |
| Strings.ContainsIff | app.py:20 | `p in s` holds exactly when `p` occurs in `s` at some index |
| Strings.SplitOn | app.py:15 | `split('\n')` always gives at least one piece and no piece contains the separator; Strings.JoinSplit and Strings.SplitJoin make it the inverse of joining |
| Strings.JoinWith | app.py:26 | `'\n'.join`; its contract is stated by Strings.JoinSplit and Strings.SplitJoin, which make it the inverse of splitting |
| Strings.IsSpace | app.py:15 | the whitespace set of `str.strip()` and of the `\s` in the marker pattern: tab to carriage return, the four ASCII separators, space and the Unicode spaces; Strings.StripSlice and Strings.StripEmptyIffBlank state what `strip` does with it |
| Strings.IsAsciiDigits | app.py:20 | `str.isdigit()` on the stripped line, restricted to ASCII digits (see Left out); Captions.CleanLineShape states that such a cue index is dropped |
| Strings.StripEmptyIffBlank | app.py:20 | `line.strip()` is empty exactly when every character of the line is whitespace |
| Strings.StripIdempotent | app.py:22 | stripping a stripped string changes nothing |
| Strings.JoinSplit | app.py:15 | joining the pieces of `split('\n')` with line breaks gives back the original text |
| Strings.SplitJoin | app.py:26 | lines without line breaks, joined with `'\n'`, split back into the same lines |
| Captions.ParseVtt | app.py:14-26 | `parse_vtt`; its contract is stated by Captions.ParseVttSpec (first occurrences of the cleaned lines, in order, joined by line breaks) and Captions.ParseVttIdempotentWhenQuiet |
| Captions.Lines | app.py:15 | the payload is stripped and split at line breaks, and no resulting line holds a line break |
| Captions.IsNoise | app.py:20 | the skip test of the loop: blank after stripping, containing `WEBVTT` or `-->`, or digits only after stripping; Captions.NoiseContributesNothing states its effect |
| Captions.CleanLine | app.py:20-23 | one line's contribution; Captions.CleanLineShape, Captions.CleanLineChars and Captions.CleanLineFixes state its contract |
| Captions.RemoveMarkers | app.py:22 | after `re.sub(r'>>\s*', '', line)` no `>>` is left; the result is never longer, and it keeps its first character unless the line starts with `>` |
| Captions.RemoveMarkersFixes | app.py:22 | a line without `>>` is left unchanged by the marker substitution |
| Captions.MarkerInside | app.py:22 | a marker in the middle of a line is removed together with the whitespace after it, and the text before it is kept |
| Captions.SpeakerMarkerRemoved | app.py:20-22 | a caption line `>> text` becomes `text`, and is not dropped as noise |
| Captions.CleanLineShape | app.py:20-23 | blank lines, header lines, cue timings and cue indices are dropped; whatever survives is non-empty, stripped and free of markers |
| Captions.CleanLineChars | app.py:22 | cleaning a line never introduces a character; in particular it never introduces a line break |
| Captions.CleanLineFixes | app.py:20-23 | a line that is already clean caption text is kept as it is |
| Captions.Collect | app.py:19-25 | the loop never emits a line twice, nor a line that was already in `seen_lines` |
| Captions.CollectIsUnique | app.py:17-25 | the loop emits the first occurrence of each cleaned line, in input order; this matches the reference definition `Unique(Cleaned(...))` |
| Captions.TranscriptLines | app.py:15-25 | the transcript lines are distinct, non-empty, stripped and marker-free, and contain no line break |
| Captions.ParseVttSpec | app.py:14-26 | a line is in the transcript exactly when some input line cleans to it; the lines are the first occurrences in input order; a non-empty transcript splits back into exactly these lines |
| Captions.NoiseContributesNothing | app.py:20-21 | inserting a noise line anywhere in the payload leaves the transcript unchanged |
| Captions.RepeatDropped | app.py:23-25 | a caption line that repeats after another line is kept only once: lines `a`, `b`, `a` give `a` and `b` |
| Captions.ParseVttFixpoint | app.py:14-26 | a transcript of distinct plain caption lines is returned unchanged |
| Captions.ParseVttIdempotentWhenQuiet | app.py:14-26 | normalising twice equals normalising once when no output line is itself noise |
| Captions.NotIdempotent | app.py:20-22 | `1>>2` normalises to `12`, and `12` normalises to the empty transcript |
| Filenames.IsForbidden | app.py:29 | the regular-expression character class of the substitution: backslash, slash, star, question mark, colon, double quote, the angle brackets and the vertical bar; Filenames.DropForbidden states that exactly these are removed |
| Filenames.CleanTitle | app.py:29 | the title before the length cut: forbidden characters removed, then stripped; Filenames.SanitizeShape states how it is kept or cut |
| Filenames.DropForbidden | app.py:29 | the result has none of the nine forbidden characters, and holds exactly the allowed characters of the name |
| Filenames.DropForbiddenAppend | app.py:29 | the forbidden characters are removed from each part of a name independently |
| Filenames.Sanitize | app.py:28-30 | a sanitised title has no forbidden character and at most 153 characters |
| Filenames.SanitizeShape | app.py:28-30 | a cleaned title of at most 150 characters is kept exactly; a longer one is cut to 150 characters plus `...`; every other character comes from the name and is allowed |
| Filenames.SanitizeIdempotent | app.py:28-30 | sanitising a sanitised title changes nothing |
| Recipes.Classify | app.py:68-73 | a URL is Granicus exactly when it contains `granicus.com`; it is Viebit exactly when it contains `viebit.com` but not `granicus.com`; otherwise it is unsupported |
| Recipes.GranicusWins | app.py:68-69 | a URL naming `granicus.com` anywhere is Granicus, even when it also names `viebit.com` |
| Recipes.ViebitSelected | app.py:70-71 | a URL naming `viebit.com` and not `granicus.com` is Viebit |
| Recipes.Recipe | app.py:32-47 | the two click recipes as data: eight awaited calls for Granicus (two clicks on the player, a hover, the captions button, the "On" item, with 500 ms pauses) and five for Viebit (play, play control, the subtitles button, the English item, with one pause); Recipes.Drive states how they run |
| Recipes.Drive | app.py:32-47 | a recipe completes exactly when every step returns; otherwise it stops at a step that raised, with that step's message, and every earlier step returned |
| Recipes.DriveAbortsAtFirstFailure | app.py:32-47 | a failing recipe stops at the first step that raised, so later steps never run |
| Capture.IsCaption | app.py:58 | `".vtt" in response.url`, a substring test, so a URL with `.vtt` anywhere counts; Capture.OnResponse and Capture.ObserveIsFirstCaption state its effect |
| Capture.Settle | app.py:59-62 | `set_result` with the body, or `set_exception` with the read error; its contract says the cell is then no longer pending, and Capture.ObserveIsFirstCaption shows the first caption response's body or error is what the cell holds |
| Capture.OnResponse | app.py:57-62 | a response without `.vtt` in its URL leaves the capture cell as it was, and so does any response once the cell is settled |
| Capture.Observe | app.py:57-64 | the handler applied to each response in turn; a settled cell stays as it is, and Capture.ObserveIsFirstCaption shows the result is the one the first caption response decides |
| Capture.ObserveIsFirstCaption | app.py:55-62 | handling the responses in order gives the same cell as the reference definition: the first caption response settles it with its body or its read error, and with no caption response it stays pending |
| Capture.IgnoresOtherResponses | app.py:58 | non-caption responses never change the cell |
| Capture.LateResponsesIgnored | app.py:58-62 | once the cell is settled, later responses do not matter |
| Extraction.ProcessUrl | app.py:49-88 | the browser is closed exactly when it launched and a page was opened; an exception escapes exactly when launching, opening the page or closing failed |
| Extraction.TryBlock | app.py:66-79 | the body of the `try`; its outcomes are stated by the Extraction lemmas below |
| Extraction.Handle | app.py:81-84 | the `except` clauses: a wait that expired gives `Timeout error`, any other exception `Error: ` plus its message; Extraction.TimeoutOnlyFromCapture and Extraction.StepFailureIsError state this |
| Extraction.CaptureResult | app.py:75 | the future as `asyncio.wait_for` sees it when the wait ends; Extraction.FirstCaptionDecides shows it is decided by the first caption response in time |
| Extraction.FilenameIffSuccess | app.py:66-88 | a file name is returned exactly when every step succeeded; it is then the sanitised title plus `.txt`, with the normalised caption body as transcript |
| Extraction.TimeoutOnlyFromCapture | app.py:75-82 | `Timeout error` is returned exactly when the page loaded, the recipe ran through and no caption response arrived within the wait |
| Extraction.UnsupportedAfterNavigation | app.py:67-73 | `Unsupported platform` is returned exactly when navigation succeeded and neither host name occurs in the URL |
| Extraction.NavigationErrorFirst | app.py:67-84 | a failed navigation is reported as `Error: ` plus its message, whatever the URL |
| Extraction.StepFailureIsError | app.py:68-84 | a recipe step that raises, a click timeout included, is reported as `Error: ` plus that step's message |
| Extraction.ReadFailureIsError | app.py:59-84 | a caption body read that raised makes the wait re-raise, and the call reports `Error: ` plus its message |
| Extraction.TitleFailureIsError | app.py:76-84 | a page title read that raised is reported as `Error: ` plus its message |
| Extraction.LateResponsesPlayNoPart | app.py:75 | responses after the wait expired do not change the result |
| Extraction.FirstCaptionDecides | app.py:57-75 | the capture the wait sees is the one the first caption response in time decides |
| Batch.NonBlank | app.py:99 | the comprehension's filter: every entry is non-empty and stripped and there are no more entries than lines; Batch.NonBlankMembers characterises its entries |
| Batch.SplitUrls | app.py:99 | every URL is a non-empty stripped line, and there are no more URLs than lines |
| Batch.NonBlankMembers | app.py:99 | a string is a URL exactly when it is the non-empty stripped form of some line |
| Batch.SplitUrlsAppend | app.py:99 | the URLs of two blocks of text joined by a line break are those of the first block, then those of the second |
| Batch.SplitUrlsJoin | app.py:99 | URLs written one per line come back as they were written |
| Batch.NothingEnteredIffBlank | app.py:99-101 | the warning is shown exactly when every line of the input is blank |
| Batch.IsSuccess | app.py:113 | the test that picks a download; Batch.SuccessIffAllSucceeded states when it holds |
| Batch.SuccessIffAllSucceeded | app.py:113 | a returned result offers a download exactly when every step of its call succeeded |
| Batch.GenerateRows | app.py:103-122 | the page crashes exactly when some call lets an exception escape; otherwise it shows one block per URL, in input order, each built from that URL's report (a duplicate preview widget is the exception named under Left out) |
| Batch.Generate | app.py:98-122 | the button handler; Batch.NothingEnteredIffBlank, Batch.GenerateRows and Batch.GenerateBlocks state its contract |
| Batch.RowFor | app.py:113-122 | the download-or-error branch for one URL; Batch.GenerateBlocks states what each block holds |
| Batch.GenerateBlocks | app.py:111-122 | a block offers a download exactly when its call fully succeeded, and then carries the normalised captions and the sanitised title with `.txt`; otherwise it shows the reason returned |

## Left out

- The Streamlit page layout, the 2000-character preview and the download widget. The model keeps the URL, the text and the file name of each block. Widget identity is not modelled; the next line names the one way it changes the outcome.
- Batch.GenerateRows: when two blocks offer downloads and their previews are the same widget call, Streamlit raises its duplicate-widget error at the second preview (app.py:114), and the page stops after the first block. The previews coincide when the two transcripts share their first 2000 characters, for example the same URL entered twice or two payloads holding only a header. The model still shows one block per URL there; its "crashes exactly when a call lets an exception escape" covers only exceptions from `process_url`.
- The `playwright install chromium` bootstrap at app.py:8-9: it is an installation side effect.
- Real time: the 45 s navigation timeout and the 20 s caption wait are not modelled as clocks. The 5 s hover timeout, the 10 s and 20 s click timeouts and the 500 ms pauses are step data. Which responses count as in time is an input (`Events.inTime`).
- Extraction.ProcessUrl: the responses are ordered by when their handlers finish, not by when they arrive. A caption response that arrives before the 20 s wait expires but whose body read ends after it counts as late, and the call reports `Timeout error`, as the program does. The model does not relate these times to a clock.
- The browser, the network and the page title: each awaited call's outcome is an input to `Extraction.ProcessUrl`.
- Captions.IsNoise: `str.isdigit` is modelled as the ASCII digits only. Python also accepts other Unicode digits, such as superscripts and other scripts' digits.
- Extraction.ProcessUrl: every exception is reduced to its message. An `asyncio.TimeoutError` raised by something other than the caption wait, for example while reading a response body or the title, would also print `Timeout error`. The model reports such exceptions as `Error: …`.
- Batch.GenerateRows: when several calls let an exception escape, the model only says that the page crashes. It does not say which exception `asyncio.gather` shows.
- The `InvalidStateError` of a slower handler: when two caption responses' body reads overlap, both pass the `done()` check. The handler that finishes first settles the future, which is what `Capture.Observe` gives over handler-finish order. The slower handler's `set_result` raises `InvalidStateError`, its `except` clause's `set_exception` raises again, and that error leaves the handler without touching the future (app.py:58-62). The model does not carry that error, which goes to the event emitter and not to `process_url`.
- The cancellation of the capture future when the wait expires, and the exit of the `async_playwright` context: neither changes the result.
- Browser channel selection (`browser_channel="chrome"`): it only matters to the launch, whose outcome is an input.
