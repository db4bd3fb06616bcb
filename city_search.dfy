/**
 * The search box script: every `keyup` on `#city-search` goes through a
 * 400 ms debounce; when the timer runs, the handler reads the box's current
 * value and posts it to `admin-ajax.php` as `fetch_city_weather`, and a
 * successful response replaces `#city-weather-table` wholesale. Loading the
 * page triggers one `keyup`.
 */
module CitySearch {
  import opened Wrappers
  import opened Seqs
  import opened Debounce

  /** The delay passed to `debounce` (the comment beside it says 300 ms). */
  const Wait: nat := 400

  const Action := "fetch_city_weather"

  /** The debounced handler uses no argument of its own: it reads the box when it runs. */
  datatype Event = KeyUp

  /** What `$.ajax` sends: `url`, `type` (the HTTP verb), and the `action` and `search` fields of `data`. */
  datatype AjaxRequest = AjaxRequest(url: string, verb: string, action: string, search: string)

  /** How one request ends: `success` with the response body, or any failure (which has no callback). */
  datatype Outcome = Success(html: string) | Failure

  /** `ajax_object.ajax_url`, the box's value, the table container's HTML, the debouncer, and every request posted so far. */
  datatype Page = Page(ajaxUrl: string, input: string, display: string, timer: Schedule<Event>, sent: seq<AjaxRequest>)

  /** The debounced handler's POST, built from the box's value at the moment it runs. */
  function Dispatch(p: Page): AjaxRequest {
    AjaxRequest(p.ajaxUrl, "POST", Action, p.input)
  }

  /** `jQuery(document).ready`: the handler is bound and `trigger("keyup")` calls it once. */
  function Loaded(ajaxUrl: string, input: string, display: string, now: nat): Page {
    Page(ajaxUrl, input, display, Invoked(Schedule(Wait, now, None), KeyUp), [])
  }

  /** A `keyup` after the box's value became `value`. */
  function Typed(p: Page, value: string): Page {
    p.(input := value, timer := Invoked(p.timer, KeyUp))
  }

  /** One millisecond; if the debounce timer runs, one request is posted. */
  function PageTick(p: Page): Page {
    var step := Ticked(p.timer);
    p.(timer := step.0, sent := p.sent + (if step.1.Some? then [Dispatch(p)] else []))
  }

  function PageTicks(p: Page, k: nat): Page
    decreases k
  {
    if k == 0 then p else PageTicks(PageTick(p), k - 1)
  }

  /** A response arrives; it is not matched against the request it answers. */
  function Received(p: Page, outcome: Outcome): Page {
    match outcome
    case Success(html) => p.(display := html)
    case Failure => p
  }

  /** `r` repeated `n` times. */
  function Repeat<T>(r: T, n: nat): (s: seq<T>)
    ensures |s| == n
    ensures forall i :: 0 <= i < n ==> s[i] == r
  {
    if n == 0 then [] else [r] + Repeat(r, n - 1)
  }

  /** A `keyup` with the box's new value, then `gap` quiet milliseconds. */
  datatype Keystroke = Keystroke(value: string, gap: nat)

  function TypeBurst(p: Page, keys: seq<Keystroke>): Page
    decreases |keys|
  {
    if keys == [] then p else TypeBurst(PageTicks(Typed(p, keys[0].value), keys[0].gap), keys[1..])
  }

  // ---------------------------------------------------------------------------
  // Properties
  // ---------------------------------------------------------------------------

  /** While the box is left alone, the page posts one request per debounce run and changes nothing else. */
  lemma {:induction false} PageTicksFollowTimer(p: Page, k: nat)
    ensures PageTicks(p, k).timer == TicksFrom(p.timer, k).0
    ensures PageTicks(p, k).sent == p.sent + Repeat(Dispatch(p), |TicksFrom(p.timer, k).1|)
    ensures PageTicks(p, k).(timer := p.timer, sent := p.sent) == p
    decreases k
  {
    if k == 0 {
      AppendEmpty(p.sent, Repeat(Dispatch(p), 0));
    } else {
      var step := Ticked(p.timer);
      var p1 := PageTick(p);
      PageTicksFollowTimer(p1, k - 1);
      var n := |TicksFrom(step.0, k - 1).1|;
      assert Dispatch(p1) == Dispatch(p);
      var mine := if step.1.Some? then [Dispatch(p)] else [];
      assert |TicksFrom(p.timer, k).1| == |Fired(step)| + n;
      assert mine + Repeat(Dispatch(p), n) == Repeat(Dispatch(p), |Fired(step)| + n) by {
        if step.1.Some? {
          assert Repeat(Dispatch(p), 1 + n) == [Dispatch(p)] + Repeat(Dispatch(p), n);
        } else {
          EmptyAppend(mine, Repeat(Dispatch(p), n));
        }
      }
      AppendAssoc(p.sent, mine, Repeat(Dispatch(p), n));
    }
  }

  /** Nothing is posted in the first 399 ms after load. */
  lemma NothingSentBeforeWait(ajaxUrl: string, input: string, display: string, now: nat, k: nat)
    requires k < Wait
    ensures PageTicks(Loaded(ajaxUrl, input, display, now), k).sent == []
  {
    var p := Loaded(ajaxUrl, input, display, now);
    PageTicksFollowTimer(p, k);
    QuietTicks(p.timer, k);
  }

  /** 400 ms after load exactly one request has been posted, carrying the box's value, and no timer is left. */
  lemma FirstRequestAtWait(ajaxUrl: string, input: string, display: string, now: nat)
    ensures PageTicks(Loaded(ajaxUrl, input, display, now), Wait).sent ==
      [AjaxRequest(ajaxUrl, "POST", "fetch_city_weather", input)]
    ensures PageTicks(Loaded(ajaxUrl, input, display, now), Wait).timer.pending.None?
  {
    var p := Loaded(ajaxUrl, input, display, now);
    PageTicksFollowTimer(p, Wait);
    DueTicks(p.timer, Wait);
    EmptyAppend(p.sent, Repeat(Dispatch(p), 1));
  }

  /**
   * Keystrokes closer together than 400 ms, the last followed by 400 quiet
   * milliseconds, post exactly one request: the one for the last value typed.
   */
  lemma {:induction false} TypingBurstSendsLast(p: Page, keys: seq<Keystroke>)
    requires p.timer.wait == Wait && keys != []
    requires forall i :: 0 <= i < |keys| - 1 ==> keys[i].gap < Wait
    requires keys[|keys| - 1].gap == Wait
    ensures TypeBurst(p, keys).sent == p.sent + [AjaxRequest(p.ajaxUrl, "POST", Action, keys[|keys| - 1].value)]
    ensures TypeBurst(p, keys).input == keys[|keys| - 1].value
    ensures TypeBurst(p, keys).timer.pending.None?
    ensures TypeBurst(p, keys).display == p.display
    decreases |keys|
  {
    var p0 := Typed(p, keys[0].value);
    var p1 := PageTicks(p0, keys[0].gap);
    PageTicksFollowTimer(p0, keys[0].gap);
    if |keys| == 1 {
      DueTicks(p0.timer, Wait);
      assert TypeBurst(p, keys) == TypeBurst(p1, []);
    } else {
      QuietTicks(p0.timer, keys[0].gap);
      AppendEmpty(p.sent, Repeat(Dispatch(p0), 0));
      TypingBurstSendsLast(p1, keys[1..]);
    }
  }

  /** With no sequence check, a late answer to an older search overwrites the newer one. */
  lemma StaleResponseWins(p: Page, newer: string, older: string)
    ensures Received(Received(p, Success(newer)), Success(older)).display == older
  {
  }

  /** A failed request leaves the table as it was. */
  lemma FailureKeepsDisplay(p: Page)
    ensures Received(p, Failure) == p
  {
  }

  /** The page: the box, the table container, the outgoing requests, and the debouncer bound to `keyup`. */
  class CitySearchPage {
    const ajaxUrl: string
    var input: string
    var display: string
    var sent: seq<AjaxRequest>
    const timer: Debouncer<Event>

    function Snapshot(): Page
      reads this, timer
    {
      Page(ajaxUrl, input, display, timer.Snapshot(), sent)
    }

    /** `jQuery(document).ready(...)` at moment `now`. */
    constructor Ready(ajaxUrl: string, input: string, display: string, now: nat)
      ensures Snapshot() == Loaded(ajaxUrl, input, display, now)
      ensures fresh(timer)
    {
      var t := new Debouncer(Wait, now);
      t.Invoke(KeyUp); // $("#city-search").trigger("keyup")
      this.ajaxUrl := ajaxUrl;
      this.input := input;
      this.display := display;
      sent := [];
      timer := t;
    }

    /** The user changes the box to `value` and releases a key. */
    method OnKeyUp(value: string)
      modifies this, timer
      ensures Snapshot() == Typed(old(Snapshot()), value)
    {
      input := value;
      timer.Invoke(KeyUp);
    }

    /** One millisecond of the event loop: the debounced handler may run and post. */
    method OnTick()
      modifies this, timer
      ensures Snapshot() == PageTick(old(Snapshot()))
    {
      var fired := timer.Tick();
      if fired.Some? {
        var searchValue := input;
        sent := sent + [AjaxRequest(ajaxUrl, "POST", Action, searchValue)];
      }
    }

    /** A response arrives: `success` replaces the table's HTML; a failure has no handler. */
    method OnResponse(outcome: Outcome)
      modifies this
      ensures Snapshot() == Received(old(Snapshot()), outcome)
    {
      if outcome.Success? {
        display := outcome.html;
      }
    }
  }
}
