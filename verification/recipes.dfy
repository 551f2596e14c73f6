/** Platform dispatch and the two click recipes (app.py:32-47, 68-73): the
    page is recognised by a host name occurring anywhere in its URL, and
    each platform has a fixed list of browser steps that switch its player's
    captions on. */
module Recipes {
  import opened Wrappers
  import opened Strings

  datatype Platform = Granicus | Viebit

  const GranicusHost: string := "granicus.com"
  const ViebitHost: string := "viebit.com"

  /** The dispatch at app.py:68-73: `granicus.com` is tested first, then
      `viebit.com`; any other URL is unsupported. */
  function Classify(url: string): (p: Option<Platform>)
    ensures p == Some(Granicus) <==> Contains(url, GranicusHost)
    ensures p == Some(Viebit) <==> !Contains(url, GranicusHost) && Contains(url, ViebitHost)
    ensures p == None <==> !Contains(url, GranicusHost) && !Contains(url, ViebitHost)
  {
    if Contains(url, GranicusHost) then Some(Granicus)
    else if Contains(url, ViebitHost) then Some(Viebit)
    else None
  }

  /** The Granicus host wins wherever it occurs, even in a URL that also
      names the Viebit host. */
  lemma GranicusWins(a: string, b: string)
    ensures Classify(a + GranicusHost + b) == Some(Granicus)
  {
    var url := a + GranicusHost + b;
    assert url[|a|..|a| + |GranicusHost|] == GranicusHost;
    ContainsAt(url, GranicusHost, |a|);
  }

  /** A URL naming only the Viebit host selects the Viebit recipe. */
  lemma ViebitSelected(a: string, b: string)
    requires !Contains(a + ViebitHost + b, GranicusHost)
    ensures Classify(a + ViebitHost + b) == Some(Viebit)
  {
    var url := a + ViebitHost + b;
    assert url[|a|..|a| + |ViebitHost|] == ViebitHost;
    ContainsAt(url, ViebitHost, |a|);
  }

  /** How a step finds its element: `page.locator(css)`, the `.first` match
      of a selector, or the element inside `within` whose text is exactly
      `text` (`get_by_text(text, exact=True)`). */
  datatype Locator =
    | Css(selector: string)
    | FirstOf(selector: string)
    | ExactText(within: string, text: string)

  /** One awaited browser call of a recipe, with its timeout in milliseconds. */
  datatype Step =
    | Click(target: Locator, timeoutMs: nat)
    | Hover(target: Locator, timeoutMs: nat)
    | Pause(ms: nat)

  /** `page.wait_for_timeout(500)` between clicks. */
  const PauseMs: nat := 500

  /** `handle_granicus_url` (app.py:32-40): start the Flowplayer twice, hover
      it so its controls show, open the captions menu and choose "On". */
  const GranicusRecipe: seq<Step> := [
    Click(Css(".flowplayer"), 10000),
    Pause(PauseMs),
    Click(Css(".flowplayer"), 10000),
    Pause(PauseMs),
    Hover(Css(".flowplayer"), 5000),
    Click(FirstOf(".fp-cc"), 10000),
    Pause(PauseMs),
    Click(ExactText(".fp-menu", "On"), 10000)
  ]

  /** `handle_viebit_url` (app.py:42-47): start the video.js player, open
      the subtitles menu and choose English. */
  const ViebitRecipe: seq<Step> := [
    Click(Css(".vjs-big-play-button"), 20000),
    Click(Css(".vjs-play-control"), 10000),
    Pause(PauseMs),
    Click(Css("button.vjs-subs-caps-button"), 10000),
    Click(Css(".vjs-menu-item:has-text(\"English\")"), 10000)
  ]

  function Recipe(p: Platform): seq<Step> {
    match p
    case Granicus => GranicusRecipe
    case Viebit => ViebitRecipe
  }

  /** What running a recipe gave: every step returned, or step `at` raised
      an exception with message `msg` and the steps after it never ran. */
  datatype Driven = Completed | Aborted(at: nat, msg: string)

  /** The steps from `i` on, awaited one after another; `outcome(k)` is what
      awaiting step `k` gives. The first exception ends the recipe. */
  function DriveFrom(steps: seq<Step>, i: nat, outcome: nat -> Attempt<()>): (d: Driven)
    requires i <= |steps|
    ensures d.Completed? <==> forall k :: i <= k < |steps| ==> outcome(k).Ok?
    ensures d.Aborted? ==>
      && i <= d.at < |steps|
      && outcome(d.at) == Raised(d.msg)
      && forall k :: i <= k < d.at ==> outcome(k).Ok?
    decreases |steps| - i
  {
    if i == |steps| then Completed
    else match outcome(i)
      case Raised(m) => Aborted(i, m)
      case Ok(_) => DriveFrom(steps, i + 1, outcome)
  }

  /** Running a whole recipe: it completes exactly when every step returns,
      and otherwise aborts at the first step that raised, with that step's
      message. */
  function Drive(steps: seq<Step>, outcome: nat -> Attempt<()>): (d: Driven)
    ensures d.Completed? <==> forall k :: 0 <= k < |steps| ==> outcome(k).Ok?
    ensures d.Aborted? ==>
      && d.at < |steps|
      && outcome(d.at) == Raised(d.msg)
      && forall k :: 0 <= k < d.at ==> outcome(k).Ok?
  {
    DriveFrom(steps, 0, outcome)
  }

  /** A recipe that aborts does so at the unique first failing step. */
  lemma DriveAbortsAtFirstFailure(steps: seq<Step>, outcome: nat -> Attempt<()>, j: nat)
    requires j < |steps| && outcome(j).Raised?
    requires forall k :: 0 <= k < j ==> outcome(k).Ok?
    ensures Drive(steps, outcome) == Aborted(j, outcome(j).msg)
  {
    var d := Drive(steps, outcome);
    assert d.Aborted?;
  }
}
