/** The serving loop `Serve` of `ws_client/client.go`. Each pass of its
    `select` is one event: the stop signal, the model-data timer, a line
    received from the socket, or a receive error. The keepalive ticker and
    the goroutine plumbing are not modelled. */
module WsServe {

  import opened Strings

  /** A URL-encoded `"vs":90` inside a presence line. */
  const SuppressMarker: string := "%22vs%22:90"

  datatype ServeEvent = Stop | TimerFired | Received(line: string) | ReceiveFailed(err: string)

  /** How the loop ended: told to stop, a receive error (which becomes the
      connector's error), or still running when the events run out. */
  datatype Exit = Stopped | Failed(err: string) | Open

  /** Values written to the result channel, the last matching line kept
      for the timer, and how the loop ended. */
  datatype Served = Served(delivered: seq<string>, found: string, exit: Exit)

  /** Mode A hands a line over at once when it names the broadcaster and
      does not carry the suppress marker. */
  predicate Deliverable(name: string, line: string) {
    Contains(line, name) && !Contains(line, SuppressMarker)
  }

  // ---- independent accounts of a run of events ----

  /** The lines received before the loop ends. */
  function ReceivedLines(events: seq<ServeEvent>): seq<string>
    decreases |events|
  {
    if |events| == 0 then []
    else match events[0]
      case Stop => []
      case ReceiveFailed(_) => []
      case TimerFired => ReceivedLines(events[1..])
      case Received(l) => [l] + ReceivedLines(events[1..])
  }

  function ExitOf(events: seq<ServeEvent>): Exit
    decreases |events|
  {
    if |events| == 0 then Open
    else match events[0]
      case Stop => Stopped
      case ReceiveFailed(e) => Failed(e)
      case _ => ExitOf(events[1..])
  }

  function FilterDeliverable(name: string, lines: seq<string>): seq<string>
    decreases |lines|
  {
    if |lines| == 0 then []
    else (if Deliverable(name, lines[0]) then [lines[0]] else []) + FilterDeliverable(name, lines[1..])
  }

  /** The last line naming the broadcaster, or `found` if there is none. */
  function LastNaming(found: string, name: string, lines: seq<string>): string
    decreases |lines|
  {
    if |lines| == 0 then found
    else LastNaming(if Contains(lines[0], name) then lines[0] else found, name, lines[1..])
  }

  predicate NoTimer(events: seq<ServeEvent>) {
    forall k :: 0 <= k < |events| ==> !events[k].TimerFired?
  }

  // ---- mode A ----

  /** `Serve(false)`: wait for the one broadcaster. A matching line is
      remembered in `found`; it is delivered at once unless suppressed;
      the timer delivers whatever is in `found`, possibly nothing. */
  function ServeSingle(name: string, found: string, events: seq<ServeEvent>): (r: Served)
    decreases |events|
    ensures forall k :: 0 <= k < |r.delivered| ==> Contains(r.delivered[k], name) || r.delivered[k] == found
    ensures r.found == found || Contains(r.found, name)
  {
    if |events| == 0 then Served([], found, Open)
    else match events[0]
      case Stop => Served([], found, Stopped)
      case ReceiveFailed(e) => Served([], found, Failed(e))
      case TimerFired =>
        var r := ServeSingle(name, found, events[1..]);
        r.(delivered := [found] + r.delivered)
      case Received(l) =>
        if Contains(l, name) then
          var r := ServeSingle(name, l, events[1..]);
          if !Contains(l, SuppressMarker) then r.(delivered := [l] + r.delivered) else r
        else ServeSingle(name, found, events[1..])
  }

  /** Before the timer fires, mode A delivers exactly the deliverable
      lines, in arrival order; `found` always holds the last line that
      named the broadcaster; and the loop ends as the events say. */
  lemma {:induction false} ServeSingleDelivers(name: string, found: string, events: seq<ServeEvent>)
    requires NoTimer(events)
    ensures ServeSingle(name, found, events).delivered == FilterDeliverable(name, ReceivedLines(events))
    ensures ServeSingle(name, found, events).found == LastNaming(found, name, ReceivedLines(events))
    ensures ServeSingle(name, found, events).exit == ExitOf(events)
    decreases |events|
  {
    if |events| > 0 {
      assert !events[0].TimerFired?;
      assert NoTimer(events[1..]) by {
        forall k | 0 <= k < |events[1..]|
          ensures !events[1..][k].TimerFired?
        {
          assert events[1..][k] == events[k + 1];
        }
      }
      match events[0]
      case Stop =>
      case ReceiveFailed(_) =>
      case Received(l) =>
        var next := if Contains(l, name) then l else found;
        ServeSingleDelivers(name, next, events[1..]);
        assert ReceivedLines(events) == [l] + ReceivedLines(events[1..]);
        assert ([l] + ReceivedLines(events[1..]))[1..] == ReceivedLines(events[1..]);
    }
  }

  /** Every event is a received line. */
  predicate AllReceived(events: seq<ServeEvent>) {
    forall k :: 0 <= k < |events| ==> events[k].Received?
  }

  lemma {:induction false} ReceivedLinesOfArrivals(events: seq<ServeEvent>)
    requires AllReceived(events)
    ensures |ReceivedLines(events)| == |events|
    ensures forall k :: 0 <= k < |events| ==> ReceivedLines(events)[k] == events[k].line
    decreases |events|
  {
    if |events| > 0 {
      assert AllReceived(events[1..]) by {
        forall k | 0 <= k < |events[1..]| ensures events[1..][k].Received? {
          assert events[1..][k] == events[k + 1];
        }
      }
      ReceivedLinesOfArrivals(events[1..]);
      assert events[0].Received?;
    }
  }

  lemma ReceivedLinesThen(events: seq<ServeEvent>, l: string)
    requires AllReceived(events)
    ensures ReceivedLines(events + [Received(l)]) == ReceivedLines(events) + [l]
  {
    ReceivedLinesOfArrivals(events);
    assert AllReceived(events + [Received(l)]) by {
      forall k | 0 <= k < |events + [Received(l)]| ensures (events + [Received(l)])[k].Received? {
        if k < |events| { assert (events + [Received(l)])[k] == events[k]; }
      }
    }
    ReceivedLinesOfArrivals(events + [Received(l)]);
  }

  lemma {:induction false} FilterDeliverableThen(name: string, lines: seq<string>, l: string)
    ensures FilterDeliverable(name, lines + [l]) ==
      FilterDeliverable(name, lines) + (if Deliverable(name, l) then [l] else [])
    decreases |lines|
  {
    if |lines| == 0 {
      assert lines + [l] == [l];
    } else {
      assert (lines + [l])[1..] == lines[1..] + [l];
      FilterDeliverableThen(name, lines[1..], l);
    }
  }

  lemma {:induction false} LastNamingThen(found: string, name: string, lines: seq<string>, l: string)
    requires Contains(l, name)
    ensures LastNaming(found, name, lines + [l]) == l
    decreases |lines|
  {
    if |lines| == 0 {
      assert lines + [l] == [l];
    } else {
      assert (lines + [l])[1..] == lines[1..] + [l];
      LastNamingThen(if Contains(lines[0], name) then lines[0] else found, name, lines[1..], l);
    }
  }

  /** Lines that do not name the broadcaster deliver nothing and leave
      `found` alone. */
  lemma {:induction false} NoNamingLines(found: string, name: string, lines: seq<string>)
    requires forall k :: 0 <= k < |lines| ==> !Contains(lines[k], name)
    ensures FilterDeliverable(name, lines) == []
    ensures LastNaming(found, name, lines) == found
    decreases |lines|
  {
    if |lines| > 0 {
      assert !Contains(lines[0], name);
      NoNamingLines(found, name, lines[1..]);
    }
  }

  /** When the timer fires after a run of received lines, mode A has handed
      over the deliverable ones, then hands over the last line that named
      the broadcaster (or the old `found`), and goes on from there. */
  lemma {:induction false} TimerAfterArrivals(
    name: string, found: string, pre: seq<ServeEvent>, post: seq<ServeEvent>)
    requires AllReceived(pre)
    ensures ServeSingle(name, found, pre + [TimerFired] + post).delivered ==
      FilterDeliverable(name, ReceivedLines(pre)) + [LastNaming(found, name, ReceivedLines(pre))]
      + ServeSingle(name, LastNaming(found, name, ReceivedLines(pre)), post).delivered
    ensures ServeSingle(name, found, pre + [TimerFired] + post).found ==
      ServeSingle(name, LastNaming(found, name, ReceivedLines(pre)), post).found
    ensures ServeSingle(name, found, pre + [TimerFired] + post).exit ==
      ServeSingle(name, LastNaming(found, name, ReceivedLines(pre)), post).exit
    decreases |pre|
  {
    var events := pre + [TimerFired] + post;
    if |pre| == 0 {
      assert events == [TimerFired] + post;
      assert events[1..] == post;
    } else {
      var l := pre[0].line;
      var next := if Contains(l, name) then l else found;
      assert events[0] == Received(l);
      assert events[1..] == pre[1..] + [TimerFired] + post;
      assert AllReceived(pre[1..]) by {
        forall k | 0 <= k < |pre[1..]| ensures pre[1..][k].Received? {
          assert pre[1..][k] == pre[k + 1];
        }
      }
      TimerAfterArrivals(name, next, pre[1..], post);
      var lines := ReceivedLines(pre[1..]);
      assert ReceivedLines(pre) == [l] + lines;
      assert ([l] + lines)[1..] == lines;
      var last := LastNaming(next, name, lines);
      var rest := ServeSingle(name, last, post).delivered;
      var now := if Deliverable(name, l) then [l] else [];
      assert now + (FilterDeliverable(name, lines) + [last] + rest)
        == (now + FilterDeliverable(name, lines)) + [last] + rest;
    }
  }

  /** A suppressed line is not handed over when it arrives, but it is what
      the timer delivers afterwards. */
  lemma SuppressedLineReachesTimer(
    name: string, found: string, pre: seq<ServeEvent>, l: string, post: seq<ServeEvent>)
    requires AllReceived(pre)
    requires Contains(l, name) && Contains(l, SuppressMarker)
    ensures ServeSingle(name, found, pre + [Received(l), TimerFired] + post).delivered ==
      FilterDeliverable(name, ReceivedLines(pre)) + [l] + ServeSingle(name, l, post).delivered
  {
    var arrivals := pre + [Received(l)];
    assert AllReceived(arrivals) by {
      forall k | 0 <= k < |arrivals| ensures arrivals[k].Received? {
        if k < |pre| { assert arrivals[k] == pre[k]; }
      }
    }
    assert pre + [Received(l), TimerFired] + post == arrivals + [TimerFired] + post;
    TimerAfterArrivals(name, found, arrivals, post);
    ReceivedLinesThen(pre, l);
    FilterDeliverableThen(name, ReceivedLines(pre), l);
    LastNamingThen(found, name, ReceivedLines(pre), l);
    assert FilterDeliverable(name, ReceivedLines(pre)) + [] == FilterDeliverable(name, ReceivedLines(pre));
  }

  /** With no line naming the broadcaster before it, the timer delivers
      the empty result. */
  lemma TimerWithoutMatchDeliversEmpty(name: string, pre: seq<ServeEvent>, post: seq<ServeEvent>)
    requires AllReceived(pre)
    requires forall k :: 0 <= k < |pre| ==> !Contains(pre[k].line, name)
    ensures ServeSingle(name, "", pre + [TimerFired] + post).delivered ==
      [""] + ServeSingle(name, "", post).delivered
  {
    TimerAfterArrivals(name, "", pre, post);
    ReceivedLinesOfArrivals(pre);
    NoNamingLines("", name, ReceivedLines(pre));
  }

  // ---- mode B ----

  /** `Serve(true)`: every received line goes to the consumer, in order,
      unfiltered, until the stop signal or a receive error. */
  method ServeAll(events: seq<ServeEvent>) returns (delivered: seq<string>, exit: Exit)
    ensures delivered == ReceivedLines(events)
    ensures exit == ExitOf(events)
  {
    delivered := [];
    var i := 0;
    while i < |events|
      invariant i <= |events|
      invariant delivered + ReceivedLines(events[i..]) == ReceivedLines(events)
      invariant ExitOf(events[i..]) == ExitOf(events)
    {
      assert events[i..][1..] == events[i + 1..];
      var ev := events[i];
      if ev.Stop? {
        return delivered, Stopped;
      } else if ev.ReceiveFailed? {
        return delivered, Failed(ev.err);
      } else if ev.Received? {
        delivered := delivered + [ev.line];
      }
      i := i + 1;
    }
    return delivered, Open;
  }

}
