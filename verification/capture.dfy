/** The single-shot capture cell of `process_url` (app.py:55-62): a future
    that the first caption response settles, with the response body or with
    the error raised while reading it. */
module Capture {
  import opened Wrappers
  import opened Strings

  /** The substring that marks a caption response's URL. */
  const VttMarker: string := ".vtt"

  /** The state of `vtt_future`. */
  datatype Cell = Pending | Resolved(body: string) | Failed(msg: string)

  /** A network response the page saw: its URL and what `response.text()`
      gives when awaited. */
  datatype Response = Response(url: string, body: Attempt<string>)

  /** `".vtt" in response.url`: a substring test, so a query string or a
      path segment holding `.vtt` counts too. */
  predicate IsCaption(r: Response) {
    Contains(r.url, VttMarker)
  }

  /** `set_result` with the body, or `set_exception` with the read error. */
  function Settle(body: Attempt<string>): (c: Cell)
    ensures !c.Pending?
  {
    match body
    case Ok(b) => Resolved(b)
    case Raised(m) => Failed(m)
  }

  /** `handle_response` (app.py:57-62): only a caption response seen while
      the cell is still pending settles it. */
  function OnResponse(cell: Cell, r: Response): (c: Cell)
    ensures !IsCaption(r) ==> c == cell
    ensures !cell.Pending? ==> c == cell
  {
    if IsCaption(r) && cell.Pending? then Settle(r.body) else cell
  }

  /** The cell after the handler has run on each response in turn. */
  function Observe(cell: Cell, rs: seq<Response>): (c: Cell)
    ensures !cell.Pending? ==> c == cell
    decreases |rs|
  {
    if |rs| == 0 then cell else Observe(OnResponse(cell, rs[0]), rs[1..])
  }

  /** The index of the first caption response, if there is one. */
  function FirstCaption(rs: seq<Response>): (i: Option<nat>)
    ensures i.Some? ==> i.value < |rs| && IsCaption(rs[i.value])
    ensures i.Some? ==> forall j :: 0 <= j < i.value ==> !IsCaption(rs[j])
    ensures i.None? ==> forall j :: 0 <= j < |rs| ==> !IsCaption(rs[j])
    decreases |rs|
  {
    if |rs| == 0 then None
    else if IsCaption(rs[0]) then Some(0)
    else match FirstCaption(rs[1..])
      case None => None
      case Some(k) => Some(k + 1)
  }

  /** The cell a pending capture ends in: settled by the first caption
      response, or still pending when there is none. */
  function Captured(rs: seq<Response>): Cell {
    match FirstCaption(rs)
    case None => Pending
    case Some(i) => Settle(rs[i].body)
  }

  /** The first caption response decides the capture; every response before
      it is ignored, and so is everything after it. */
  lemma {:induction false} ObserveIsFirstCaption(rs: seq<Response>)
    ensures Observe(Pending, rs) == Captured(rs)
    decreases |rs|
  {
    if |rs| > 0 && !IsCaption(rs[0]) {
      ObserveIsFirstCaption(rs[1..]);
    }
  }

  /** Responses without `.vtt` in their URL never change the cell. */
  lemma {:induction false} IgnoresOtherResponses(cell: Cell, rs: seq<Response>)
    requires forall j :: 0 <= j < |rs| ==> !IsCaption(rs[j])
    ensures Observe(cell, rs) == cell
    decreases |rs|
  {
    if |rs| > 0 {
      IgnoresOtherResponses(cell, rs[1..]);
    }
  }

  /** Observing two runs of responses is observing their concatenation. */
  lemma {:induction false} ObserveAppend(cell: Cell, a: seq<Response>, b: seq<Response>)
    ensures Observe(cell, a + b) == Observe(Observe(cell, a), b)
    decreases |a|
  {
    if |a| > 0 {
      assert (a + b)[1..] == a[1..] + b;
      ObserveAppend(OnResponse(cell, a[0]), a[1..], b);
    } else {
      assert a + b == b;
    }
  }

  /** Once a prefix of the responses has settled the cell, the responses
      after it do not matter. */
  lemma LateResponsesIgnored(rs: seq<Response>, n: nat)
    requires n <= |rs| && !Observe(Pending, rs[..n]).Pending?
    ensures Observe(Pending, rs) == Observe(Pending, rs[..n])
  {
    assert rs == rs[..n] + rs[n..];
    ObserveAppend(Pending, rs[..n], rs[n..]);
  }
}
