/** `process_url` (app.py:49-88) as a function of what each awaited browser
    call gives: the page is opened, the URL classified and its recipe
    driven, the caption capture awaited, and the browser closed on every
    way out of the `try` block. */
module Extraction {
  import opened Wrappers
  import opened Strings
  import opened Captions
  import opened Filenames
  import opened Recipes
  import opened Capture

  const TimeoutReason: string := "Timeout error"
  const UnsupportedReason: string := "Unsupported platform"
  const ErrorPrefix: string := "Error: "
  const TranscriptSuffix: string := ".txt"

  /** What the browser does during one call: the outcome of launching it,
      of opening the page and of navigating (with its 45-second timeout);
      `steps(k)` is the outcome of the recipe's `k`-th step; the responses
      the page receives, in the order in which their handlers finish (for a
      caption response, when its body read returns), of which the first
      `inTime` finish before the 20-second capture wait expires; the page
      title; and the outcome of closing the browser. */
  datatype Events = Events(
    launch: Attempt<()>,
    newPage: Attempt<()>,
    navigation: Attempt<()>,
    steps: nat -> Attempt<()>,
    responses: seq<Response>,
    inTime: nat,
    title: Attempt<string>,
    close: Attempt<()>)

  /** The pair `process_url` returns: a transcript and its file name, or a
      reason and `None`. */
  datatype Report = Report(text: string, filename: Option<string>)

  /** How `process_url` ends: it returns a report, or an exception escapes it. */
  datatype Exit = Returned(report: Report) | Escaped(msg: string)

  /** The call's end together with whether `browser.close()` was awaited. */
  datatype Run = Run(exit: Exit, closed: bool)

  /** How the `try` block at app.py:66-79 is left. */
  datatype TryExit =
    | Finished(transcript: string, filename: string)
    | EarlyReturn(report: Report)
    | WaitTimedOut
    | Threw(msg: string)

  /** The responses whose handlers finish before the capture wait gives up. */
  function InTime(ev: Events): seq<Response> {
    ev.responses[..if ev.inTime <= |ev.responses| then ev.inTime else |ev.responses|]
  }

  /** The capture cell when the wait ends. */
  function CaptureResult(ev: Events): Cell {
    Observe(Pending, InTime(ev))
  }

  /** The body of the `try` block (app.py:67-79). */
  function TryBlock(url: string, ev: Events): TryExit {
    match ev.navigation
    case Raised(m) => Threw(m)
    case Ok(_) =>
      match Classify(url)
      case None => EarlyReturn(Report(UnsupportedReason, None))
      case Some(p) =>
        match Drive(Recipe(p), ev.steps)
        case Aborted(_, m) => Threw(m)
        case Completed =>
          match CaptureResult(ev)
          case Pending => WaitTimedOut
          case Failed(m) => Threw(m)
          case Resolved(body) =>
            match ev.title
            case Raised(m) => Threw(m)
            case Ok(t) => Finished(ParseVtt(body), Sanitize(t) + TranscriptSuffix)
  }

  /** The `except` clauses (app.py:81-84) and the final `return`. */
  function Handle(t: TryExit): Report {
    match t
    case Finished(transcript, filename) => Report(transcript, Some(filename))
    case EarlyReturn(r) => r
    case WaitTimedOut => Report(TimeoutReason, None)
    case Threw(m) => Report(ErrorPrefix + m, None)
  }

  /** `process_url` (app.py:49-88). Launching the browser and opening the
      page happen before the `try`, so their failures escape and nothing is
      closed; after that `browser.close()` runs on every way out, and an
      exception it raises replaces the report. */
  function ProcessUrl(url: string, ev: Events): (r: Run)
    ensures r.closed <==> ev.launch.Ok? && ev.newPage.Ok?
    ensures r.exit.Escaped? <==> ev.launch.Raised? || ev.newPage.Raised? || ev.close.Raised?
  {
    match ev.launch
    case Raised(m) => Run(Escaped(m), false)
    case Ok(_) =>
      match ev.newPage
      case Raised(m) => Run(Escaped(m), false)
      case Ok(_) =>
        var report := Handle(TryBlock(url, ev));
        match ev.close
        case Raised(m) => Run(Escaped(m), true)
        case Ok(_) => Run(Returned(report), true)
  }

  /** The call got past opening the page and closing the browser. */
  predicate Opened(ev: Events) {
    ev.launch.Ok? && ev.newPage.Ok? && ev.close.Ok?
  }

  /** Every step up to the capture went through and the captions arrived. */
  predicate AllSucceeded(url: string, ev: Events) {
    && Opened(ev)
    && ev.navigation.Ok?
    && Classify(url).Some?
    && Drive(Recipe(Classify(url).value), ev.steps).Completed?
    && CaptureResult(ev).Resolved?
    && ev.title.Ok?
  }

  /** A file name is returned exactly when every step succeeded; it is then
      the sanitised title with `.txt`, and the transcript is the normalised
      caption body. */
  lemma FilenameIffSuccess(url: string, ev: Events)
    ensures (ProcessUrl(url, ev).exit.Returned? && ProcessUrl(url, ev).exit.report.filename.Some?)
      <==> AllSucceeded(url, ev)
    ensures AllSucceeded(url, ev) ==>
      ProcessUrl(url, ev).exit == Returned(Report(
        ParseVtt(CaptureResult(ev).body), Some(Sanitize(ev.title.value) + TranscriptSuffix)))
  {
  }

  /** "Timeout error" comes only from the capture wait: it is returned
      exactly when the page was reached, the recipe ran through, and no
      caption response arrived in time. */
  lemma TimeoutOnlyFromCapture(url: string, ev: Events)
    ensures ProcessUrl(url, ev).exit == Returned(Report(TimeoutReason, None)) <==>
      && Opened(ev)
      && ev.navigation.Ok?
      && Classify(url).Some?
      && Drive(Recipe(Classify(url).value), ev.steps).Completed?
      && CaptureResult(ev).Pending?
  {
    var t := TryBlock(url, ev);
    if t.Threw? {
      assert (ErrorPrefix + t.msg)[0] == 'E';
    }
  }

  /** "Unsupported platform" is returned exactly when navigation succeeded
      and neither host occurs in the URL; classification comes after
      navigation. */
  lemma UnsupportedAfterNavigation(url: string, ev: Events)
    ensures ProcessUrl(url, ev).exit == Returned(Report(UnsupportedReason, None)) <==>
      Opened(ev) && ev.navigation.Ok? && Classify(url).None?
  {
    var t := TryBlock(url, ev);
    if t.Threw? {
      assert (ErrorPrefix + t.msg)[0] == 'E';
    }
  }

  /** A failed navigation is reported as an error whatever the URL, even one
      no recipe supports. */
  lemma NavigationErrorFirst(url: string, ev: Events, m: string)
    requires Opened(ev) && ev.navigation == Raised(m)
    ensures ProcessUrl(url, ev).exit == Returned(Report(ErrorPrefix + m, None))
  {
  }

  /** A caption body read that raised settles the capture with its error,
      which the wait re-raises: it is reported as an error with that
      message, not as a timeout. */
  lemma ReadFailureIsError(url: string, ev: Events, m: string)
    requires Opened(ev) && ev.navigation.Ok? && Classify(url).Some?
    requires Drive(Recipe(Classify(url).value), ev.steps).Completed?
    requires CaptureResult(ev) == Failed(m)
    ensures ProcessUrl(url, ev).exit == Returned(Report(ErrorPrefix + m, None))
  {
  }

  /** Reading the page title comes after the captions arrived; when it
      raises, the call reports an error with that message. */
  lemma TitleFailureIsError(url: string, ev: Events, m: string)
    requires Opened(ev) && ev.navigation.Ok? && Classify(url).Some?
    requires Drive(Recipe(Classify(url).value), ev.steps).Completed?
    requires CaptureResult(ev).Resolved? && ev.title == Raised(m)
    ensures ProcessUrl(url, ev).exit == Returned(Report(ErrorPrefix + m, None))
  {
  }

  /** A step of the recipe that raises, for example a click that times out,
      is reported as an error with that step's message, not as a timeout. */
  lemma StepFailureIsError(url: string, ev: Events, p: Platform, j: nat)
    requires Opened(ev) && ev.navigation.Ok? && Classify(url) == Some(p)
    requires j < |Recipe(p)| && ev.steps(j).Raised?
    requires forall k :: 0 <= k < j ==> ev.steps(k).Ok?
    ensures ProcessUrl(url, ev).exit == Returned(Report(ErrorPrefix + ev.steps(j).msg, None))
  {
    DriveAbortsAtFirstFailure(Recipe(p), ev.steps, j);
  }

  /** Responses arriving after the wait gave up play no part. */
  lemma LateResponsesPlayNoPart(url: string, ev: Events, late: seq<Response>)
    requires ev.inTime <= |ev.responses|
    ensures ProcessUrl(url, ev.(responses := ev.responses + late)) == ProcessUrl(url, ev)
  {
    var ev' := ev.(responses := ev.responses + late);
    assert InTime(ev') == InTime(ev) by {
      assert (ev.responses + late)[..ev.inTime] == ev.responses[..ev.inTime];
    }
  }

  /** The first caption response in time decides the result: a body read
      that raised is an error, and one without any caption response is a
      timeout. */
  lemma FirstCaptionDecides(url: string, ev: Events)
    ensures CaptureResult(ev) == Captured(InTime(ev))
  {
    ObserveIsFirstCaption(InTime(ev));
  }
}
