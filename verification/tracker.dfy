/** The presence tracker of `spy/mfcwatch.go`: a map from broadcaster id
    to the latest state, and the bounded channel of change events that
    `modelMapper` feeds. The lock around the map and the goroutine that
    drains the channel are not modelled; the state is one immutable value
    and each operation returns its successor. */
module Tracker {

  import opened Wrappers
  import opened GoInt
  import opened Models

  /** Capacity of the buffered state channel. */
  const StateChanCap: nat := 10000

  /** `ModelState`: a record plus the time it was stored (`time.Now()`,
      here in whole seconds, 0 being Go's zero time). */
  datatype ModelState = ModelState(model: MFCModel, changeTime: int)

  const ZeroState: ModelState := ModelState(ZeroModel, 0)

  /** `ModelMapType`: the map, and the events still buffered in the
      channel, oldest first. */
  datatype ModelMap = ModelMap(data: map<uint64, ModelState>, queue: seq<ModelState>)

  /** The channel never holds more than its capacity. */
  predicate Valid(m: ModelMap) {
    |m.queue| <= StateChanCap
  }

  datatype MapperError = StateChannelBlocked | DataFailure(cause: DataError)

  /** `Get`: the stored state and whether there was one; a missing id
      yields Go's zero value. */
  function Get(m: ModelMap, uid: uint64): (r: (ModelState, bool))
    ensures r.1 <==> uid in m.data
    ensures r.1 ==> r.0 == m.data[uid]
    ensures !r.1 ==> r.0 == ZeroState
  {
    if uid in m.data then (m.data[uid], true) else (ZeroState, false)
  }

  /** `Set`: replace the entry for one id. */
  function Set(m: ModelMap, uid: uint64, s: ModelState): (r: ModelMap)
    ensures Get(r, uid) == (s, true)
    ensures forall u :: u != uid ==> Get(r, u) == Get(m, u)
    ensures r.queue == m.queue
  {
    m.(data := m.data[uid := s])
  }

  /** `SendState`: a non-blocking send. A full channel is reported as an
      error and left as it was; otherwise the state joins the tail. */
  function SendState(m: ModelMap, s: ModelState): (r: (ModelMap, Option<MapperError>))
    ensures r.0.data == m.data
    ensures r.1.Some? <==> |m.queue| >= StateChanCap
    ensures r.1.Some? ==> r.1.value == StateChannelBlocked && r.0 == m
    ensures r.1.None? ==> r.0.queue == m.queue + [s]
    ensures Valid(m) ==> Valid(r.0)
  {
    if |m.queue| < StateChanCap then (m.(queue := m.queue + [s]), None)
    else (m, Some(StateChannelBlocked))
  }

  /** The watcher's receive on the channel: the oldest buffered event. */
  function Receive(m: ModelMap): (r: Option<(ModelState, ModelMap)>)
    ensures r.None? <==> |m.queue| == 0
    ensures r.Some? ==> [r.value.0] + r.value.1.queue == m.queue && r.value.1.data == m.data
  {
    if |m.queue| == 0 then None else Some((m.queue[0], m.(queue := m.queue[1..])))
  }

  /** Whether storing `s` is a change the watcher must hear about: the id
      was never seen, or its visibility code differs. */
  predicate IsChange(m: ModelMap, s: ModelState) {
    var (prior, ok) := Get(m, s.model.uid);
    !ok || prior.model.vs != s.model.vs
  }

  /** The level-4 branch of `modelMapper`: announce a change, then store.
      A failed send returns before the store. */
  function Observe(m: ModelMap, s: ModelState): (r: (ModelMap, Option<MapperError>))
    ensures r.1.Some? <==> IsChange(m, s) && |m.queue| >= StateChanCap
    ensures r.1.Some? ==> r == (m, Some(StateChannelBlocked))
    ensures r.1.None? ==> Get(r.0, s.model.uid) == (s, true)
    ensures forall u :: u != s.model.uid ==> Get(r.0, u) == Get(m, u)
    ensures r.1.None? && IsChange(m, s) ==> r.0.queue == m.queue + [s]
    ensures !IsChange(m, s) ==> r.0.queue == m.queue
    ensures Valid(m) ==> Valid(r.0)
  {
    if IsChange(m, s) then
      var (sent, err) := SendState(m, s);
      if err.Some? then (m, err) else (Set(sent, s.model.uid, s), None)
    else (Set(m, s.model.uid, s), None)
  }

  /** `modelMapper` once `GetModelData` has run: the service-information
      error is swallowed, other errors are passed up, records of any
      level but the broadcaster level are dropped. */
  function MapDecoded(m: ModelMap, d: ModelData, now: int): (r: (ModelMap, Option<MapperError>))
    ensures d.err == Some(ServiceInfoError) ==> r == (m, None)
    ensures d.err.Some? && d.err.value != ServiceInfoError ==> r == (m, Some(DataFailure(d.err.value)))
    ensures d.err.None? && d.model.lv != ModelLv ==> r == (m, None)
    ensures d.err.None? && d.model.lv == ModelLv ==> r == Observe(m, ModelState(d.model, now))
  {
    match d.err
    case Some(e) => if e == ServiceInfoError then (m, None) else (m, Some(DataFailure(e)))
    case None =>
      if d.model.lv == ModelLv then Observe(m, ModelState(d.model, now)) else (m, None)
  }

  /** `modelMapper(msg)`, with the clock reading `now`. */
  function ModelMapper(m: ModelMap, msg: string, codec: Codec, now: int): (r: (ModelMap, Option<MapperError>))
    ensures r.1 != Some(DataFailure(ServiceInfoError))
    ensures r.1.None? || r.0 == m
    ensures Valid(m) ==> Valid(r.0)
  {
    MapDecoded(m, GetModelData(msg, codec), now)
  }

  /** `Set` then `Get` on the same id gives back what was stored, and no
      other id is touched. */
  lemma GetSet(m: ModelMap, uid: uint64, s: ModelState, other: uint64)
    ensures Get(Set(m, uid, s), uid) == (s, true)
    ensures other != uid ==> Get(Set(m, uid, s), other) == Get(m, other)
  {
  }

  /** What leaves the channel is what entered it, in order. */
  lemma {:induction false} ChannelIsFifo(m: ModelMap, s: ModelState)
    requires |m.queue| < StateChanCap
    ensures Receive(SendState(m, s).0) ==
      if |m.queue| == 0 then Some((s, m))
      else Some((m.queue[0], SendState(m.(queue := m.queue[1..]), s).0))
  {
    if |m.queue| > 0 {
      assert (m.queue + [s])[1..] == m.queue[1..] + [s];
    }
  }

  // ---- a run of updates for one broadcaster ----

  /** Feed a run of level-4 states through `Observe`, stopping at the
      first error as the reader loop does. */
  function ObserveAll(m: ModelMap, ss: seq<ModelState>): (r: (ModelMap, Option<MapperError>))
    decreases |ss|
  {
    if |ss| == 0 then (m, None)
    else
      var (m1, err) := Observe(m, ss[0]);
      if err.Some? then (m1, err) else ObserveAll(m1, ss[1..])
  }

  /** The independent account of which updates are announced: the first
      one unless its code equals the previous, and then each one whose
      code differs from the one before it. */
  function Transitions(prev: Option<uint64>, ss: seq<ModelState>): seq<ModelState>
    decreases |ss|
  {
    if |ss| == 0 then []
    else
      (if prev != Some(ss[0].model.vs) then [ss[0]] else [])
      + Transitions(Some(ss[0].model.vs), ss[1..])
  }

  function StoredVs(m: ModelMap, uid: uint64): Option<uint64> {
    if uid in m.data then Some(m.data[uid].model.vs) else None
  }

  /** For any run of updates about one broadcaster, with room in the
      channel, exactly the visibility transitions are announced (the first
      observation counts as one), and the map ends on the last update. */
  lemma {:induction false} EventsAreTransitions(m: ModelMap, uid: uint64, ss: seq<ModelState>)
    requires forall k :: 0 <= k < |ss| ==> ss[k].model.uid == uid
    requires |m.queue| + |ss| <= StateChanCap
    ensures ObserveAll(m, ss).1.None?
    ensures ObserveAll(m, ss).0.queue == m.queue + Transitions(StoredVs(m, uid), ss)
    ensures |ss| > 0 ==> Get(ObserveAll(m, ss).0, uid) == (ss[|ss| - 1], true)
    ensures forall u :: u != uid ==> Get(ObserveAll(m, ss).0, u) == Get(m, u)
    decreases |ss|
  {
    if |ss| > 0 {
      var (m1, err) := Observe(m, ss[0]);
      assert err.None?;
      assert StoredVs(m1, uid) == Some(ss[0].model.vs);
      var t0 := if StoredVs(m, uid) != Some(ss[0].model.vs) then [ss[0]] else [];
      assert m1.queue == m.queue + t0;
      EventsAreTransitions(m1, uid, ss[1..]);
      assert (m.queue + t0) + Transitions(Some(ss[0].model.vs), ss[1..])
        == m.queue + Transitions(StoredVs(m, uid), ss);
      if |ss| > 1 {
        assert ss[1..][|ss[1..]| - 1] == ss[|ss| - 1];
      }
    }
  }

  /** Repeating the stored code announces nothing. */
  lemma {:induction false} SteadyStatusIsSilent(v: uint64, ss: seq<ModelState>)
    requires forall k :: 0 <= k < |ss| ==> ss[k].model.vs == v
    ensures Transitions(Some(v), ss) == []
    decreases |ss|
  {
    if |ss| > 0 {
      SteadyStatusIsSilent(v, ss[1..]);
    }
  }

  /** Online, away, online again: three announcements, the first being the
      first sighting. */
  lemma OnlineAwayOnline(a: ModelState, b: ModelState, c: ModelState)
    requires a.model.vs == IsOnline && b.model.vs == IsAway && c.model.vs == IsOnline
    ensures Transitions(None, [a, b, c]) == [a, b, c]
  {
    assert [a, b, c][1..] == [b, c];
    assert [b, c][1..] == [c];
    assert Transitions(Some(IsAway), [c]) == [c] + Transitions(Some(IsOnline), []) == [c];
    assert Transitions(Some(IsOnline), [b, c]) == [b] + [c];
  }

  /** A changed record meeting a full channel changes nothing: the map
      keeps its old entry (or stays without one). */
  lemma OverflowKeepsOldEntry(m: ModelMap, s: ModelState)
    requires |m.queue| == StateChanCap
    requires IsChange(m, s)
    ensures Observe(m, s) == (m, Some(StateChannelBlocked))
    ensures Get(Observe(m, s).0, s.model.uid) == Get(m, s.model.uid)
  {
  }

}
