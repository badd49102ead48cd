/** The consumer side of `spy/mfcwatch.go` (`stateHandle`) and the reader
    loop `ReadForever` of `ws_client/client.go` that drives `modelMapper`.
    Recording sessions, the channel receive and the map lock are replaced
    by explicit inputs: the event taken from the channel and the map as
    it stands each time the watcher looks at it. */
module Watcher {

  import opened Wrappers
  import opened GoInt
  import opened Models
  import opened Tracker

  /** The watcher's test: the *current* entry, read with `Get`, is
      recordable. A missing entry reads as Go's zero value, whose code 0
      is "online". */
  predicate Recordable(m: ModelMap, uid: uint64) {
    RecordEnable(Get(m, uid).0.model)
  }

  /** An id never observed counts as recordable; an observed one only
      while its stored code is online. */
  lemma RecordableIffOnlineOrUnseen(m: ModelMap, uid: uint64)
    ensures Recordable(m, uid) <==> uid !in m.data || m.data[uid].model.vs == IsOnline
  {
  }

  datatype HandleOutcome =
    | Ignored                      // the event is about another broadcaster
    | Stopped(recordings: nat)     // the entry stopped being recordable
    | StillRecording(recordings: nat)  // every look so far found it recordable

  /** One event taken from the channel. `looks[k]` is the map as the
      watcher reads it before deciding on recording number `k + 1`; every
      recordable look starts one recording and waits for it to end. */
  method HandleEvent(watched: string, event: ModelState, looks: seq<ModelMap>)
    returns (outcome: HandleOutcome)
    ensures outcome.Ignored? <==> event.model.nm != watched
    ensures outcome.Stopped? ==>
      && outcome.recordings < |looks|
      && (forall k :: 0 <= k < outcome.recordings ==> Recordable(looks[k], event.model.uid))
      && !Recordable(looks[outcome.recordings], event.model.uid)
    ensures outcome.StillRecording? ==>
      && outcome.recordings == |looks|
      && forall k :: 0 <= k < |looks| ==> Recordable(looks[k], event.model.uid)
  {
    if event.model.nm != watched {
      return Ignored;
    }
    var uid := event.model.uid;
    var started := 0;
    while started < |looks|
      invariant started <= |looks|
      invariant forall k :: 0 <= k < started ==> Recordable(looks[k], uid)
    {
      if !Recordable(looks[started], uid) {
        return Stopped(started);
      }
      started := started + 1;
    }
    return StillRecording(started);
  }

  // ---- ReadForever ----

  /** What the reader takes from the result channel: a line, or the
      closed channel, with the error the serving loop left behind. */
  datatype Feed<M> = Line(msg: M) | Closed(err: Option<string>)

  datatype ReadOutcome<E> =
    | HandlerFailed(cause: E)        // ReadForever returned the handler's error
    | Spinning(err: Option<string>)  // the loop keeps receiving from a closed channel
    | Returned(err: Option<string>)  // ReadForever returned the serving loop's error
    | Waiting                        // nothing more has arrived yet

  /** `ReadForever` as written: on a closed channel it copies the serving
      loop's error and goes round again, so it never returns; it returns
      only when the handler fails. */
  function ReadForever<S, M, E>(s: S, handler: (S, M) -> (S, Option<E>), feed: seq<Feed<M>>)
    : (r: (S, ReadOutcome<E>))
    decreases |feed|
    ensures !r.1.Returned?
    ensures r.1.HandlerFailed? ==> exists k :: 0 <= k < |feed| && feed[k].Line?
  {
    if |feed| == 0 then (s, Waiting)
    else match feed[0]
      case Closed(e) => (s, Spinning(e))
      case Line(msg) =>
        var (s1, err) := handler(s, msg);
        if err.Some? then (s1, HandlerFailed(err.value))
        else
          var r := ReadForever(s1, handler, feed[1..]);
          assert r.1.HandlerFailed? ==> feed[0].Line?;
          r
  }

  /** `ReadForever` with the closed-channel case leaving the loop, as the
      `break` on the handler error suggests was meant. */
  function ReadForeverFixed<S, M, E>(s: S, handler: (S, M) -> (S, Option<E>), feed: seq<Feed<M>>)
    : (r: (S, ReadOutcome<E>))
    decreases |feed|
    ensures !r.1.Spinning?
  {
    if |feed| == 0 then (s, Waiting)
    else match feed[0]
      case Closed(e) => (s, Returned(e))
      case Line(msg) =>
        var (s1, err) := handler(s, msg);
        if err.Some? then (s1, HandlerFailed(err.value))
        else ReadForeverFixed(s1, handler, feed[1..])
  }

  predicate HasClose<M>(feed: seq<Feed<M>>) {
    exists k :: 0 <= k < |feed| && feed[k].Closed?
  }

  /** As written, once the channel closes the reader neither returns the
      serving loop's error nor stops: every feed that closes before the
      handler fails ends in the spin. */
  lemma {:induction false} ClosedFeedSpins<S, M, E>(s: S, handler: (S, M) -> (S, Option<E>), feed: seq<Feed<M>>)
    requires HasClose(feed)
    ensures ReadForever(s, handler, feed).1.Spinning? || ReadForever(s, handler, feed).1.HandlerFailed?
    decreases |feed|
  {
    if feed[0].Line? {
      var k :| 0 <= k < |feed| && feed[k].Closed?;
      assert feed[1..][k - 1].Closed?;
      var (s1, err) := handler(s, feed[0].msg);
      if err.None? {
        ClosedFeedSpins(s1, handler, feed[1..]);
      }
    }
  }

  /** The corrected reader returns on every feed that closes, with the
      serving loop's error unless the handler failed first; before that
      point both readers do the same thing. */
  lemma {:induction false} FixedReturnsOnClose<S, M, E>(s: S, handler: (S, M) -> (S, Option<E>), feed: seq<Feed<M>>)
    requires HasClose(feed)
    ensures ReadForeverFixed(s, handler, feed).1.Returned? || ReadForeverFixed(s, handler, feed).1.HandlerFailed?
    ensures ReadForever(s, handler, feed).0 == ReadForeverFixed(s, handler, feed).0
    ensures ReadForever(s, handler, feed).1.Spinning? <==> ReadForeverFixed(s, handler, feed).1.Returned?
    decreases |feed|
  {
    if feed[0].Line? {
      var k :| 0 <= k < |feed| && feed[k].Closed?;
      assert feed[1..][k - 1].Closed?;
      var (s1, err) := handler(s, feed[0].msg);
      if err.None? {
        FixedReturnsOnClose(s1, handler, feed[1..]);
      }
    }
  }

  /** The concrete case: the transport fails, the serving loop closes the
      channel, and the reader as written never reports it. */
  lemma ReadForeverMissesTransportError<S, M, E>(s: S, handler: (S, M) -> (S, Option<E>))
    ensures ReadForever(s, handler, [Closed(Some("EOF"))]) == (s, Spinning(Some("EOF")))
    ensures ReadForeverFixed(s, handler, [Closed(Some("EOF"))]) == (s, Returned(Some("EOF")))
  {
  }

  // ---- the tracker behind the reader ----

  /** `modelMapper` as the reader's handler; each line carries the clock
      reading at which it was handled. */
  function Mapper(codec: Codec): (ModelMap, (string, int)) -> (ModelMap, Option<MapperError>) {
    (m: ModelMap, item: (string, int)) => ModelMapper(m, item.0, codec, item.1)
  }

  /** The first failing message (a full channel, an unescape error) ends
      `ReadForever`: later messages are not processed. */
  lemma {:induction false} MapperErrorEndsReading(m: ModelMap, codec: Codec, item: (string, int), rest: seq<Feed<(string, int)>>)
    requires ModelMapper(m, item.0, codec, item.1).1.Some?
    ensures ReadForever(m, Mapper(codec), [Line(item)] + rest)
      == (m, HandlerFailed(ModelMapper(m, item.0, codec, item.1).1.value))
  {
    var feed := [Line(item)] + rest;
    assert feed[0] == Line(item);
    assert Mapper(codec)(m, item) == ModelMapper(m, item.0, codec, item.1);
  }

}
