/** The RTMP side of the recorder (`rtmpdump/dumper.go`): deriving the
    playback target from a broadcaster record, the receive callback with
    its byte accounting and challenge reply, the ready wait, and the
    session loop with its no-data watchdog. The RTMP transport, the AMF0
    encoder, the script evaluator and the FLV writer are not modelled:
    their results are inputs and the calls made on them are outputs. */
module Rtmp {

  import opened Wrappers
  import opened GoInt
  import opened Decimal
  import opened Strings
  import opened Models

  const ServerOffset: int := -500
  const RoomOffset: int := 100000000
  const ChallengeResultToken: int := 120781448
  const NanosPerSecond: int := 1_000_000_000
  /** `dataReceiveTimeout` as a `time.Duration`, in nanoseconds. */
  const DataReceiveTimeout: int := 30 * NanosPerSecond

  const UrlPrefix: string := "rtmp://video"
  const UrlSuffix: string := ".myfreecams.com:1935/NxServer"
  const PathPrefix: string := "mp4:mfc_"
  const PathSuffix: string := ".f4v"

  /** `RtmpConn`. */
  datatype RtmpConn = RtmpConn(
    serverUrl: string, playpath: string, sessionId: uint64, modelId: uint64, roomId: uint64)

  /** The text between a fixed prefix and suffix, read as a number. */
  function ParseBetween(s: string, prefix: string, suffix: string): Option<int> {
    if |s| >= |prefix| + |suffix| && StartsWith(s, prefix) && s[|s| - |suffix|..] == suffix
    then Atoi(s[|prefix|..|s| - |suffix|])
    else None
  }

  lemma ParseBetweenFormat(prefix: string, n: int, suffix: string)
    ensures ParseBetween(prefix + Itoa(n) + suffix, prefix, suffix) == Some(n)
  {
    var s := prefix + Itoa(n) + suffix;
    assert s[..|prefix|] == prefix;
    assert s[|s| - |suffix|..] == suffix;
    assert s[|prefix|..|s| - |suffix|] == Itoa(n);
    ItoaRoundTrip(n);
  }

  /** `RtmpUrlData`: the relay number is `Camserv - 500` in int32
      arithmetic, with no check of its sign; the room id is `Uid + 10^8`
      in uint64 arithmetic, and the playpath is built from that same
      number. The HD flag is not consulted. */
  function RtmpUrlData(m: MFCModel): (r: RtmpConn)
    ensures r.sessionId == m.sid && r.modelId == m.uid
    ensures r.roomId % TwoTo64 == (m.uid + RoomOffset) % TwoTo64
    ensures m.uid < TwoTo64 - RoomOffset ==> r.roomId == m.uid + RoomOffset
  {
    var server := Wrap32(m.camserv + ServerOffset);
    var room := WrapU64(m.uid + RoomOffset);
    RtmpConn(
      UrlPrefix + Itoa(server) + UrlSuffix,
      PathPrefix + Itoa(room) + PathSuffix,
      m.sid, m.uid, room)
  }

  /** The URL names relay `Camserv - 500` (as int32), and the playpath
      names the room id the record carries. */
  lemma RtmpUrlDataParses(m: MFCModel)
    ensures ParseBetween(RtmpUrlData(m).serverUrl, UrlPrefix, UrlSuffix) == Some(Wrap32(m.camserv + ServerOffset))
    ensures ParseBetween(RtmpUrlData(m).playpath, PathPrefix, PathSuffix) == Some(RtmpUrlData(m).roomId as int)
  {
    ParseBetweenFormat(UrlPrefix, Wrap32(m.camserv + ServerOffset), UrlSuffix);
    ParseBetweenFormat(PathPrefix, WrapU64(m.uid + RoomOffset), PathSuffix);
  }

  /** The target reads only the camera server, the uid and the session. */
  lemma TargetReadsRouting(m1: MFCModel, m2: MFCModel)
    requires m1.camserv == m2.camserv && m1.uid == m2.uid && m1.sid == m2.sid
    ensures RtmpUrlData(m1) == RtmpUrlData(m2)
  {
  }

  /** The target does not depend on the HD flag. */
  lemma TargetIgnoresHD(m: MFCModel, flags: int32)
    ensures RtmpUrlData(m.(flags := flags)) == RtmpUrlData(m)
  {
    TargetReadsRouting(m.(flags := flags), m);
  }

  /** A camera server below 500 gives a negative relay number. */
  lemma LowCamservGoesNegative(m: MFCModel)
    requires 0 <= m.camserv < 500
    ensures ParseBetween(RtmpUrlData(m).serverUrl, UrlPrefix, UrlSuffix) == Some(m.camserv - 500)
  {
    RtmpUrlDataParses(m);
  }

  // ---- the receive callback ----

  /** RTMP message type ids for audio and video data. */
  const AudioType: int := 8
  const VideoType: int := 9

  datatype Message = Message(msgType: int, payload: seq<byte>, timestamp: int)

  predicate IsMedia(msg: Message) {
    msg.msgType == VideoType || msg.msgType == AudioType
  }

  function Ascii(s: string): (r: seq<byte>)
    requires forall i :: 0 <= i < |s| ==> s[i] as int < 256
    ensures |r| == |s|
  {
    seq(|s|, i requires 0 <= i < |s| => s[i] as int)
  }

  const LoginResult: seq<byte> := Ascii("loginResult")
  const FunctionOpen: seq<byte> := Ascii("(function(")
  const NewlineByte: byte := 10
  const CloseParenByte: byte := 41

  /** Index of the first newline, or the length when there is none. */
  function LineEnd(t: seq<byte>): (e: nat)
    decreases |t|
    ensures e <= |t|
    ensures forall i :: 0 <= i < e ==> t[i] != NewlineByte
    ensures e < |t| ==> t[e] == NewlineByte
  {
    if |t| == 0 || t[0] == NewlineByte then 0 else 1 + LineEnd(t[1..])
  }

  /** The largest `j` with `lo <= j < hi` and `t[j] == ')'`. */
  function LastClose(t: seq<byte>, lo: nat, hi: nat): (r: Option<nat>)
    requires hi <= |t|
    decreases hi
    ensures r.Some? ==> lo <= r.value < hi && t[r.value] == CloseParenByte
    ensures r.Some? ==> forall j :: r.value < j < hi ==> t[j] != CloseParenByte
    ensures r.None? ==> forall j :: lo <= j < hi ==> t[j] != CloseParenByte
  {
    if hi <= lo then None
    else if t[hi - 1] == CloseParenByte then Some(hi - 1)
    else LastClose(t, lo, hi - 1)
  }

  /** Length of the match of `\(function\(.+\)` at the front of `t`: `.`
      takes any byte but a newline and `.+` is greedy, so the match runs to
      the last `)` on the line, leaving at least one byte for `.+`. */
  function JsMatchAt(t: seq<byte>): (r: Option<nat>)
    ensures r.Some? ==> 12 <= r.value <= |t| && StartsWith(t, FunctionOpen)
    ensures r.Some? ==> t[r.value - 1] == CloseParenByte
  {
    if StartsWith(t, FunctionOpen) then
      match LastClose(t, 11, LineEnd(t))
      case Some(j) => Some(j + 1)
      case None => None
    else None
  }

  /** The match is greedy: it ends at the last `)` of the line, so no `)`
      follows it there; and there is none exactly when the text does not
      open with "(function(" or has no `)` on its line after the one byte
      `.+` must take. */
  lemma JsMatchGreedy(t: seq<byte>)
    ensures JsMatchAt(t).Some? ==> JsMatchAt(t).value <= LineEnd(t)
    ensures JsMatchAt(t).Some? ==>
      forall j :: JsMatchAt(t).value <= j < LineEnd(t) ==> t[j] != CloseParenByte
    ensures JsMatchAt(t).None? <==>
      !StartsWith(t, FunctionOpen) || forall j :: 11 <= j < LineEnd(t) ==> t[j] != CloseParenByte
  {
  }

  /** `jsRegexp.FindString`: the leftmost match, or nothing. */
  function FindJs(s: seq<byte>): (r: seq<byte>)
    decreases |s|
    ensures |r| == 0 || (StartsWith(r, FunctionOpen) && r[|r| - 1] == CloseParenByte && Contains(s, r))
    ensures forall i :: 0 <= i < |r| ==> r[i] != NewlineByte
  {
    match JsMatchAt(s)
    case Some(n) =>
      assert s[..n][..|FunctionOpen|] == s[..|FunctionOpen|];
      assert s[..n][..n] == s[..n];
      ContainsAt(s, s[..n], 0);
      s[..n]
    case None =>
      if |s| == 0 then []
      else
        var r := FindJs(s[1..]);
        assert |r| > 0 ==> Contains(s, r) by {
          if |r| > 0 {
            ContainsSuffix(s, r, 1);
          }
        }
        r
  }

  /** The first `j` with `i <= j <= n` and `m(j)`. */
  function FirstMatch(m: nat -> bool, i: nat, n: nat): (r: Option<nat>)
    requires i <= n
    decreases n - i
    ensures r.Some? ==> i <= r.value <= n && m(r.value)
  {
    if m(i) then Some(i)
    else if i == n then None
    else FirstMatch(m, i + 1, n)
  }

  /** Nothing before the position `FirstMatch` finds satisfies `m`, and
      when it finds none, nothing in range does. */
  lemma {:induction false} FirstMatchLeftmost(m: nat -> bool, i: nat, n: nat)
    requires i <= n
    ensures FirstMatch(m, i, n).Some? ==> forall j :: i <= j < FirstMatch(m, i, n).value ==> !m(j)
    ensures FirstMatch(m, i, n).None? ==> forall j :: i <= j <= n ==> !m(j)
    decreases n - i
  {
    if !m(i) && i < n {
      FirstMatchLeftmost(m, i + 1, n);
    }
  }

  /** The positions of `s` where the pattern matches. */
  function MatchesAt(s: seq<byte>): nat -> bool {
    (j: nat) => j <= |s| && JsMatchAt(s[j..]).Some?
  }

  /** The leftmost position at or after `i` where the pattern matches. */
  function FirstJs(s: seq<byte>, i: nat): (r: Option<nat>)
    requires i <= |s|
    ensures r.Some? ==> i <= r.value <= |s| && JsMatchAt(s[r.value..]).Some?
  {
    FirstMatch(MatchesAt(s), i, |s|)
  }

  /** `FindJs` and `FirstJs` both take a step past a position that does
      not match. */
  lemma FindJsSkip(s: seq<byte>, i: nat)
    requires i < |s| && JsMatchAt(s[i..]).None?
    ensures FindJs(s[i..]) == FindJs(s[i + 1..])
    ensures FirstJs(s, i) == FirstJs(s, i + 1)
  {
    assert s[i..][1..] == s[i + 1..];
  }

  /** A suffix that opens with a match yields that match. */
  lemma FindJsHere(s: seq<byte>, i: nat)
    requires i <= |s| && JsMatchAt(s[i..]).Some?
    ensures FirstJs(s, i) == Some(i)
    ensures FindJs(s[i..]) == s[i..i + JsMatchAt(s[i..]).value]
  {
    var n := JsMatchAt(s[i..]).value;
    assert s[i..][..n] == s[i..i + n];
  }

  /** Scanning a suffix finds the leftmost match in it, whole. */
  lemma {:induction false} FindJsFrom(s: seq<byte>, i: nat)
    requires i <= |s|
    ensures FindJs(s[i..]) == match FirstJs(s, i)
      case None => []
      case Some(p) => s[p..p + JsMatchAt(s[p..]).value]
    decreases |s| - i
  {
    if JsMatchAt(s[i..]).Some? {
      FindJsHere(s, i);
    } else if i < |s| {
      FindJsSkip(s, i);
      FindJsFrom(s, i + 1);
    }
  }

  /** `FindString` returns the leftmost match. */
  lemma FindJsLeftmost(s: seq<byte>)
    ensures FindJs(s) == match FirstJs(s, 0)
      case None => []
      case Some(p) => s[p..p + JsMatchAt(s[p..]).value]
  {
    assert s[0..] == s;
    FindJsFrom(s, 0);
  }

  /** `FindString` returns the empty string exactly when nothing matches. */
  lemma FindJsEmptyIffNoMatch(s: seq<byte>)
    ensures |FindJs(s)| == 0 <==> forall j :: 0 <= j <= |s| ==> JsMatchAt(s[j..]).None?
  {
    if FirstJs(s, 0).None? {
      assert FindJs(s) == [] by { FindJsLeftmost(s); }
      NoFirstJsNoMatch(s);
    } else {
      var p := FirstJs(s, 0).value;
      assert |FindJs(s)| >= 12 by {
        FindJsLeftmost(s);
      }
      assert JsMatchAt(s[p..]).Some?;
    }
  }

  lemma NoFirstJsNoMatch(s: seq<byte>)
    requires FirstJs(s, 0).None?
    ensures forall j :: 0 <= j <= |s| ==> JsMatchAt(s[j..]).None?
  {
    forall j | 0 <= j <= |s| ensures JsMatchAt(s[j..]).None? {
      FirstMatchLeftmost(MatchesAt(s), 0, |s|);
      assert !MatchesAt(s)(j);
    }
  }

  datatype AmfValue = AmfNull | AmfString(text: string)

  /** An AMF0 command as handed to the encoder. */
  datatype Command = Command(isFlex: bool, name: string, transactionId: int, objects: seq<AmfValue>)

  /** The reply to the login challenge: the script's answer under a
      fixed transaction id. */
  function ChallengeReply(answer: string): Command {
    Command(false, "_result", ChallengeResultToken, [AmfNull, AmfString(answer)])
  }

  /** What the callback does to the outside world. */
  datatype Action =
    | WriteVideoTag(data: seq<byte>, timestamp: int)
    | WriteAudioTag(data: seq<byte>, timestamp: int)
    | SendCommand(cmd: Command)
    | SignalReady
    | Fatal(err: string)   // log.Fatal: the process exits

  /** `MfcRtmpHandler` plus the package-wide byte counter `dataSize`;
      `hasFile` says whether an FLV file is attached. */
  datatype Handler = Handler(hasFile: bool, lastReceived: int64, dataSize: int)

  /** The login part of `OnReceived`: run the embedded script and answer. */
  function LoginActions(msg: Message, eval: seq<byte> -> Result<string, string>): seq<Action> {
    if Contains(msg.payload, LoginResult) then
      match eval(FindJs(msg.payload))
      case Err(e) => [Fatal(e)]
      case Ok(answer) => [SendCommand(ChallengeReply(answer)), SignalReady]
    else []
  }

  /** The callback runs to its end: no login result, or its script ran. */
  predicate Completes(msg: Message, eval: seq<byte> -> Result<string, string>) {
    !Contains(msg.payload, LoginResult) || eval(FindJs(msg.payload)).Ok?
  }

  predicate IsSinkWrite(a: Action) {
    a.WriteVideoTag? || a.WriteAudioTag?
  }

  /** `OnReceived` with the clock reading `now` (whole seconds) and the
      script evaluator `eval`. */
  function OnReceived(h: Handler, msg: Message, now: int64, eval: seq<byte> -> Result<string, string>)
    : (r: (Handler, seq<Action>))
    // a login result is answered once, with the fixed transaction id
    ensures Contains(msg.payload, LoginResult) && eval(FindJs(msg.payload)).Ok? ==>
      |r.1| >= 2 && r.1[0] == SendCommand(Command(false, "_result", 120781448,
        [AmfNull, AmfString(eval(FindJs(msg.payload)).value)])) && r.1[1] == SignalReady
    ensures Contains(msg.payload, LoginResult) && eval(FindJs(msg.payload)).Err? ==>
      r == (h, [Fatal(eval(FindJs(msg.payload)).error)])
    ensures !Contains(msg.payload, LoginResult) ==> forall k :: 0 <= k < |r.1| ==> !r.1[k].SendCommand?
    // audio and video count their bytes, with or without a file
    ensures r.0.hasFile == h.hasFile
    ensures Completes(msg, eval) ==>
      && r.0.dataSize == h.dataSize + (if IsMedia(msg) then |msg.payload| else 0)
      && r.0.lastReceived == (if IsMedia(msg) then now else h.lastReceived)
    ensures !IsMedia(msg) ==> r.0 == h
    // the file is written only when one is attached
    ensures forall k :: 0 <= k < |r.1| && IsSinkWrite(r.1[k]) ==>
      IsMedia(msg) && h.hasFile && k == |r.1| - 1
      && r.1[k].data == msg.payload && r.1[k].timestamp == msg.timestamp
      && (r.1[k].WriteVideoTag? <==> msg.msgType == VideoType)
    ensures Completes(msg, eval) && IsMedia(msg) && h.hasFile ==> |r.1| > 0 && IsSinkWrite(r.1[|r.1| - 1])
    // one answer and one ready signal per login result, at most one write
    ensures Completes(msg, eval) ==>
      |r.1| == (if Contains(msg.payload, LoginResult) then 2 else 0) + (if IsMedia(msg) && h.hasFile then 1 else 0)
  {
    var login := LoginActions(msg, eval);
    if |login| == 1 then (h, login)
    else if msg.msgType == VideoType then
      (h.(dataSize := h.dataSize + |msg.payload|, lastReceived := now),
       login + (if h.hasFile then [WriteVideoTag(msg.payload, msg.timestamp)] else []))
    else if msg.msgType == AudioType then
      (h.(dataSize := h.dataSize + |msg.payload|, lastReceived := now),
       login + (if h.hasFile then [WriteAudioTag(msg.payload, msg.timestamp)] else []))
    else (h, login)
  }

  /** The transport delivering messages one after another, each with the
      clock reading at its arrival. */
  function ReceiveAll(h: Handler, msgs: seq<(Message, int64)>, eval: seq<byte> -> Result<string, string>)
    : Handler
    decreases |msgs|
  {
    if |msgs| == 0 then h
    else ReceiveAll(OnReceived(h, msgs[0].0, msgs[0].1, eval).0, msgs[1..], eval)
  }

  /** Payload bytes of the audio and video messages. */
  function MediaBytes(msgs: seq<(Message, int64)>): nat
    decreases |msgs|
  {
    if |msgs| == 0 then 0
    else (if IsMedia(msgs[0].0) then |msgs[0].0.payload| else 0) + MediaBytes(msgs[1..])
  }

  /** The byte counter grows by exactly the audio and video payload bytes,
      and nothing else moves it. */
  lemma {:induction false} ByteAccounting(h: Handler, msgs: seq<(Message, int64)>, eval: seq<byte> -> Result<string, string>)
    requires forall k :: 0 <= k < |msgs| ==> Completes(msgs[k].0, eval)
    ensures ReceiveAll(h, msgs, eval).dataSize == h.dataSize + MediaBytes(msgs)
    ensures (forall k :: 0 <= k < |msgs| ==> !IsMedia(msgs[k].0)) ==> ReceiveAll(h, msgs, eval) == h
    decreases |msgs|
  {
    if |msgs| > 0 {
      assert Completes(msgs[0].0, eval);
      var h1 := OnReceived(h, msgs[0].0, msgs[0].1, eval).0;
      ByteAccounting(h1, msgs[1..], eval);
      assert forall k :: 0 < k < |msgs| ==> msgs[1..][k - 1] == msgs[k];
    }
  }

  // ---- the watchdog ----

  /** The no-data test of `RecordStream`: a media packet has been seen and
      `time.Duration(now - LastReceived) * time.Second` exceeds 30 s, in
      Go's int64 arithmetic. */
  predicate NoDataExpired(last: int64, now: int64) {
    last != 0 && Wrap64(Wrap64(now - last) * NanosPerSecond) > DataReceiveTimeout
  }

  /** For clock differences a real session can produce (under about 285
      years), the test is "more than 30 whole seconds since the last
      media packet", and it never holds before the first one. */
  lemma NoDataAfterThirtySeconds(last: int64, now: int64)
    requires -9_000_000_000 <= now - last <= 9_000_000_000
    ensures NoDataExpired(last, now) <==> last != 0 && now - last > 30
  {
    var d := now - last;
    assert Wrap64(d) == d;
    assert -9_000_000_000_000_000_000 <= d * NanosPerSecond <= 9_000_000_000_000_000_000;
    assert Wrap64(d * NanosPerSecond) == d * NanosPerSecond;
  }

  // ---- waitForCreateStreamReady ----

  /** How the wait on the ready channel ends. */
  datatype ReadyEvent = Signalled | ChannelClosed | TimedOut

  function WaitForCreateStreamReady(ev: ReadyEvent): (r: Option<string>)
    ensures r.None? <==> ev == Signalled
    ensures ev == ChannelClosed ==> r == Some("streamReadyChan closed")
    ensures ev == TimedOut ==> r == Some("streamReadyChan wait timeout")
  {
    match ev
    case Signalled => None
    case ChannelClosed => Some("streamReadyChan closed")
    case TimedOut => Some("streamReadyChan wait timeout")
  }

  /** The callback signals the ready channel exactly when it answered a
      login challenge. */
  lemma ChallengeAnswerSignalsReady(h: Handler, msg: Message, now: int64, eval: seq<byte> -> Result<string, string>)
    ensures SignalReady in OnReceived(h, msg, now, eval).1 <==>
      Contains(msg.payload, LoginResult) && eval(FindJs(msg.payload)).Ok?
  {
    if Contains(msg.payload, LoginResult) && eval(FindJs(msg.payload)).Ok? {
      assert OnReceived(h, msg, now, eval).1[1] == SignalReady;
    }
  }

  // ---- RecordStream ----

  /** One pass of the session loop: the peer closed the stream, the
      one-second timer fired at clock `now`, or the callback ran. */
  datatype LoopEvent = PeerClosed | Tick(now: int64) | Incoming(msg: Message, at: int64)

  datatype SessionEnd =
    | NotPlaying          // returned before `Play`
    | StreamClosed        // "Stream closed"
    | NoData              // "No data anymore, stream close"
    | ProcessExit(err: string)
    | StillRunning        // the events ran out

  function SessionLoop(h: Handler, events: seq<LoopEvent>, eval: seq<byte> -> Result<string, string>)
    : (r: (Handler, seq<Action>, SessionEnd))
    decreases |events|
    ensures r.2 != NotPlaying
    ensures r.0.hasFile == h.hasFile
    ensures r.2 == NoData ==> r.0.lastReceived != 0
  {
    if |events| == 0 then (h, [], StillRunning)
    else match events[0]
      case PeerClosed => (h, [], StreamClosed)
      case Tick(now) =>
        if NoDataExpired(h.lastReceived, now) then (h, [], NoData)
        else SessionLoop(h, events[1..], eval)
      case Incoming(msg, at) =>
        var (h1, acts) := OnReceived(h, msg, at, eval);
        if !Completes(msg, eval) then (h1, acts, ProcessExit(eval(FindJs(msg.payload)).error))
        else
          var (h2, more, end) := SessionLoop(h1, events[1..], eval);
          (h2, acts + more, end)
  }

  /** The loop goes on past `ev`: a tick before the deadline, or a
      callback that ran to its end. */
  predicate GoesOn(h: Handler, ev: LoopEvent, eval: seq<byte> -> Result<string, string>) {
    match ev
    case PeerClosed => false
    case Tick(now) => !NoDataExpired(h.lastReceived, now)
    case Incoming(msg, _) => Completes(msg, eval)
  }

  /** The handler and the actions after the loop has gone past `ev`. */
  function After(h: Handler, ev: LoopEvent, eval: seq<byte> -> Result<string, string>): Handler {
    if ev.Incoming? then OnReceived(h, ev.msg, ev.at, eval).0 else h
  }

  function StepActions(h: Handler, ev: LoopEvent, eval: seq<byte> -> Result<string, string>): seq<Action> {
    if ev.Incoming? then OnReceived(h, ev.msg, ev.at, eval).1 else []
  }

  /** Every event of `events` lets the loop go on. */
  predicate Continues(h: Handler, events: seq<LoopEvent>, eval: seq<byte> -> Result<string, string>)
    decreases |events|
  {
    |events| == 0 || (GoesOn(h, events[0], eval) && Continues(After(h, events[0], eval), events[1..], eval))
  }

  /** The handler once the callback has run on the messages of `events`,
      up to the first close. */
  function HandlerAfter(h: Handler, events: seq<LoopEvent>, eval: seq<byte> -> Result<string, string>): Handler
    decreases |events|
  {
    if |events| == 0 || events[0].PeerClosed? then h
    else HandlerAfter(After(h, events[0], eval), events[1..], eval)
  }

  /** One pass of the loop that goes on. */
  lemma SessionLoopGoesOn(h: Handler, events: seq<LoopEvent>, eval: seq<byte> -> Result<string, string>)
    requires |events| > 0 && GoesOn(h, events[0], eval)
    ensures SessionLoop(h, events, eval).0 == SessionLoop(After(h, events[0], eval), events[1..], eval).0
    ensures SessionLoop(h, events, eval).1 ==
      StepActions(h, events[0], eval) + SessionLoop(After(h, events[0], eval), events[1..], eval).1
    ensures SessionLoop(h, events, eval).2 == SessionLoop(After(h, events[0], eval), events[1..], eval).2
  {
    if events[0].Tick? {
      assert [] + SessionLoop(h, events[1..], eval).1 == SessionLoop(h, events[1..], eval).1;
    }
  }

  /** `SessionLoopGoesOn` for a run that continues with `rest`. */
  lemma SessionLoopGoesOnConcat(
    h: Handler, pre: seq<LoopEvent>, rest: seq<LoopEvent>, eval: seq<byte> -> Result<string, string>)
    requires |pre| > 0 && GoesOn(h, pre[0], eval)
    ensures SessionLoop(h, pre + rest, eval).0 == SessionLoop(After(h, pre[0], eval), pre[1..] + rest, eval).0
    ensures SessionLoop(h, pre + rest, eval).1 ==
      StepActions(h, pre[0], eval) + SessionLoop(After(h, pre[0], eval), pre[1..] + rest, eval).1
    ensures SessionLoop(h, pre + rest, eval).2 == SessionLoop(After(h, pre[0], eval), pre[1..] + rest, eval).2
  {
    assert (pre + rest)[0] == pre[0] && (pre + rest)[1..] == pre[1..] + rest;
    SessionLoopGoesOn(h, pre + rest, eval);
  }

  /** Events that let the loop go on leave it running, with the handler
      they built. */
  lemma {:induction false} SessionLoopRunsThrough(
    h: Handler, pre: seq<LoopEvent>, eval: seq<byte> -> Result<string, string>)
    requires Continues(h, pre, eval)
    ensures SessionLoop(h, pre, eval).2 == StillRunning
    ensures SessionLoop(h, pre, eval).0 == HandlerAfter(h, pre, eval)
    decreases |pre|
  {
    if |pre| > 0 {
      SessionLoopRunsThrough(After(h, pre[0], eval), pre[1..], eval);
      SessionLoopGoesOn(h, pre, eval);
    }
  }

  /** After events that let the loop go on, the loop carries on from the
      handler they built: the same end and the same final handler. */
  lemma {:induction false} SessionLoopResumes(
    h: Handler, pre: seq<LoopEvent>, rest: seq<LoopEvent>, eval: seq<byte> -> Result<string, string>)
    requires Continues(h, pre, eval)
    ensures SessionLoop(h, pre + rest, eval).2 == SessionLoop(HandlerAfter(h, pre, eval), rest, eval).2
    ensures SessionLoop(h, pre + rest, eval).0 == SessionLoop(HandlerAfter(h, pre, eval), rest, eval).0
    decreases |pre|
  {
    if |pre| == 0 {
      assert pre + rest == rest;
    } else {
      var h1 := After(h, pre[0], eval);
      assert HandlerAfter(h, pre, eval) == HandlerAfter(h1, pre[1..], eval);
      SessionLoopResumes(h1, pre[1..], rest, eval);
      SessionLoopGoesOnConcat(h, pre, rest, eval);
    }
  }

  /** The loop ends at the first event that does not let it go on: a close
      ends it with "Stream closed", an expired tick with "No data anymore",
      a failed script with the process exit. */
  lemma SessionLoopStops(
    h: Handler, pre: seq<LoopEvent>, ev: LoopEvent, rest: seq<LoopEvent>, eval: seq<byte> -> Result<string, string>)
    requires Continues(h, pre, eval)
    ensures ev == PeerClosed ==> SessionLoop(h, pre + [ev] + rest, eval).2 == StreamClosed
    ensures ev.Tick? && NoDataExpired(HandlerAfter(h, pre, eval).lastReceived, ev.now) ==>
      SessionLoop(h, pre + [ev] + rest, eval).2 == NoData
    ensures ev.Incoming? && !Completes(ev.msg, eval) ==>
      SessionLoop(h, pre + [ev] + rest, eval).2 == ProcessExit(eval(FindJs(ev.msg.payload)).error)
  {
    assert pre + [ev] + rest == pre + ([ev] + rest);
    SessionLoopResumes(h, pre, [ev] + rest, eval);
    assert ([ev] + rest)[0] == ev;
  }

  predicate NoMedia(events: seq<LoopEvent>) {
    forall k :: 0 <= k < |events| && events[k].Incoming? ==> !IsMedia(events[k].msg)
  }

  /** Without a media packet the counter never moves and the no-data exit
      never fires: the watchdog only guards a stream that has started. */
  lemma {:induction false} NoDataNeedsMedia(h: Handler, events: seq<LoopEvent>, eval: seq<byte> -> Result<string, string>)
    requires h.lastReceived == 0
    requires NoMedia(events)
    ensures SessionLoop(h, events, eval).2 != NoData
    ensures SessionLoop(h, events, eval).0 == h
    decreases |events|
  {
    if |events| > 0 {
      assert NoMedia(events[1..]) by {
        forall k | 0 <= k < |events[1..]| && events[1..][k].Incoming?
          ensures !IsMedia(events[1..][k].msg)
        {
          assert events[1..][k] == events[k + 1];
        }
      }
      match events[0]
      case PeerClosed =>
      case Tick(now) =>
        NoDataNeedsMedia(h, events[1..], eval);
      case Incoming(msg, at) =>
        assert !IsMedia(msg);
        NoDataNeedsMedia(h, events[1..], eval);
    }
  }

  /** The environment's answers during one `RecordStream` call. */
  datatype SessionIO = SessionIO(
    dialErr: Option<string>,
    connectErr: Option<string>,
    ready: ReadyEvent,
    createStreamErr: Option<string>,
    streamCreated: bool,      // false: the 60 s wait for the stream timed out
    events: seq<LoopEvent>)

  /** The arguments of `obConn.Connect`. */
  datatype ConnectCall = ConnectCall(token: string, roomId: string, opType: string, modelId: int)

  /** What a `RecordStream` call returns and did: its error, how the
      session ended, whether the transport was closed, the connect and
      play calls made, the final handler and the callback's actions. */
  datatype Recording = Recording(
    err: Option<string>,
    end: SessionEnd,
    transportClosed: bool,
    connect: Option<ConnectCall>,
    played: Option<string>,
    handler: Handler,
    actions: seq<Action>)

  function RecordStream(
    roomId: int64, modelId: int64, playPath: string, wsToken: string,
    hasFile: bool, dataSize: int, io: SessionIO, eval: seq<byte> -> Result<string, string>)
    : (r: Recording)
    // once dialled, the deferred close runs on every return; `log.Fatal`
    // in the callback exits the process without running it, and a loop
    // still running has not returned
    ensures r.transportClosed <==> io.dialErr.None? && !r.end.ProcessExit? && !r.end.StillRunning?
    ensures io.dialErr.Some? ==> r.err == io.dialErr && r.connect.None?
    ensures io.dialErr.None? && io.connectErr.Some? ==> r.err == io.connectErr
    ensures io.dialErr.None? ==> r.connect == Some(ConnectCall(wsToken, Itoa(roomId), "DOWNLOAD", modelId))
    // each wait point either succeeds or ends the call with its own error
    ensures r.played.Some? <==>
      (io.dialErr.None? && io.connectErr.None? && io.ready == Signalled
      && io.createStreamErr.None? && io.streamCreated)
    ensures r.played.Some? ==> r.played.value == playPath && r.err.None? && r.end != NotPlaying
    ensures r.played.None? ==> r.err.Some? && r.end == NotPlaying
    ensures io.dialErr.None? && io.connectErr.None? && io.ready != Signalled ==>
      r.err == WaitForCreateStreamReady(io.ready)
    ensures (io.dialErr.None? && io.connectErr.None? && io.ready == Signalled
      && io.createStreamErr.Some?) ==> r.err == io.createStreamErr
    ensures (io.dialErr.None? && io.connectErr.None? && io.ready == Signalled
      && io.createStreamErr.None? && !io.streamCreated) ==> r.err == Some("create stream timeout")
    // a session is a fresh handler over the shared counter
    ensures r.handler.dataSize == dataSize || r.played.Some?
    ensures r.end == NoData ==> !NoMedia(io.events)
  {
    var h := Handler(hasFile, 0, dataSize);
    if io.dialErr.Some? then Recording(io.dialErr, NotPlaying, false, None, None, h, [])
    else
      var call := Some(ConnectCall(wsToken, Itoa(roomId), "DOWNLOAD", modelId));
      if io.connectErr.Some? then Recording(io.connectErr, NotPlaying, true, call, None, h, [])
      else
        var waitErr := WaitForCreateStreamReady(io.ready);
        if waitErr.Some? then Recording(waitErr, NotPlaying, true, call, None, h, [])
        else if io.createStreamErr.Some? then Recording(io.createStreamErr, NotPlaying, true, call, None, h, [])
        else if !io.streamCreated then Recording(Some("create stream timeout"), NotPlaying, true, call, None, h, [])
        else
          var (h1, acts, end) := SessionLoop(h, io.events, eval);
          assert NoMedia(io.events) ==> end != NoData by {
            if NoMedia(io.events) {
              NoDataNeedsMedia(h, io.events, eval);
            }
          }
          Recording(None, end, !end.ProcessExit? && !end.StillRunning?, call, Some(playPath), h1, acts)
  }

}
