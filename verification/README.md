# gomfc core in Dafny

gomfc is a Go client for the MyFreeCams chat and video service. It watches
a performer's presence over the chat websocket and, when the performer is
online, records the RTMP video stream. This project models the sequential
core of that client as pure Dafny functions over immutable data, and proves
what each step promises.

The model covers four parts.

- **Model records** (`Models`). These are the decoded `MFCModel` record, its
  status labels, the online and HD classifications, and `GetModelData`.
  `GetModelData` strips the five-number routing prefix, maps the errors, and
  recomputes `Exists` and `Status` on every return path. URL unescaping and
  JSON decoding enter as the two functions of a `Codec`.
- **Presence tracker** (`Tracker`, `Watcher`). `ModelMapType` is a map from
  uid to `ModelState` plus the bounded state channel, modelled as a FIFO
  `seq` with capacity 10000. `SendState` never blocks. `modelMapper` is one
  state transition that returns the new map and an optional error.
  `stateHandle` decides when to keep recording. `ReadForever` drives the
  mapper over the lines the websocket delivers.
- **Websocket client** (`WsClient`, `WsServe`).
  - `CreateConnection` is a bounded retry over per-attempt environment
    records (`AttemptIO`). Each record holds the reply lines and the outcome
    of every write.
  - The outgoing lines are fixed templates. Parsing a template back with
    `strings.Fields` gives the intended fields.
  - `getWSServer` picks a server key.
  - `Serve` filters lines in single-model mode and forwards every line in
    all-models mode.
- **RTMP dumper** (`Rtmp`). This covers:
  - the target URL and playpath derivation;
  - `OnReceived`, which answers the login challenge, counts bytes and writes
    to the file;
  - the ready-channel wait;
  - the no-data watchdog;
  - the order of the steps in `RecordStream`.

  Network calls and script evaluation are inputs.

Helper modules restate the Go library behaviour the core relies on:

- `GoInt`: int32 and int64 wrap-around, truncating division and bitwise AND;
- `Strings`: `strings.Contains` and `strings.Replace` with `n = -1`;
- `Decimal`: `%d` and `strconv` formatting, with a parser for round trips;
- `Whitespace`: `strings.Fields` with `unicode.IsSpace`;
- `Wrappers`: `Option` and `Result`.

Where the code and its documentation disagree, the model follows the code.
In particular:

- there is one camserv offset and one playpath template, and `IsHD` is never
  consulted;
- the watchdog compares wall-clock seconds since the last media packet;
- the no-data exit returns a nil error;
- the byte counter is a package global that `RecordStream` never resets;
- a mapper error ends `ReadForever`;
- the first sighting of a uid emits an event, so online, away, online emits
  three events, not two.

## Model

| member | source | states |
|---|---|---|
| `Models.SetStatus` | models/models.go:51-63 | a missing model is labelled "unknown model" whatever its Vs; a present model gets the table label for its Vs, or "unknown status" when Vs is not in the table; no other field changes |
| `Models.OnlineLabelIffRecordable` | models/models.go:56-67 | the status label is "online" exactly when the model exists and is recordable (Vs = 0) |
| `Models.OffLabels` | models/models.go:23-30 | for a present model, the label "off" comes from exactly the two codes 90 and 127 |
| `Models.IsHDIffBit10` | models/models.go:69-71 | IsHD holds exactly when bit 10 (value 1024) of the 32-bit flags word is set, negative flags included |
| `Models.FindFrom` | models/models.go:83-84 | a match reported starts at or after the search position and is a complete run sequence ending inside the text |
| `Models.FindFromLeftmost` | models/models.go:83-84 | the match reported is the leftmost one: no earlier position starts a match, and no match is reported only when no position starts one |
| `Models.FindRouting` | models/models.go:83-84 | a match found is five digit-runs each followed by one whitespace character, and it occurs in the input; there is no match exactly when no position of the input starts one |
| `Models.StripRouting` | models/models.go:83-85 | with no routing match the text is unchanged; with one the text gets strictly shorter |
| `Models.NoEarlierMatch` | models/models.go:83-85 | no occurrence of the matched text starts before the leftmost match, since it would be an earlier match of the pattern |
| `Models.RemoveLeftmostMatch` | models/models.go:83-85 | for the leftmost match from i to e, deleting every occurrence of its text keeps everything before i, drops the match itself, and deletes the later occurrences from the text after e |
| `Models.StripRoutingExact` | models/models.go:83-85 | with a match from position i to e, the result is the text before i followed by the text after e with every later occurrence of the code deleted |
| `Models.StripRoutingPrefix` | models/models.go:83-85 | a message made of a routing code and a body that does not repeat that code decodes from exactly the body |
| `Models.GetModelData` | models/models.go:73-90 | on every path Exists equals Nm != "" and Status is recomputed; an unescape failure returns its own error with an empty record; the decoder sees the text without its routing prefix, and a decode failure becomes ServiceInfoError |
| `Tracker.Get` | spy/mfcwatch.go:32-37 | a present uid yields its stored state and true; an absent one yields the zero state and false |
| `Tracker.Set` | spy/mfcwatch.go:39-43 | after the store, reading the uid gives the new state; every other uid and the channel are unchanged |
| `Tracker.GetSet` | spy/mfcwatch.go:32-43 | get-after-set returns the stored state, and other uids read as before |
| `Tracker.SendState` | spy/mfcwatch.go:45-52 | never blocks: at capacity 10000 it fails with "state channel is blocked" and changes nothing, otherwise it appends the state at the tail; the map is untouched |
| `Tracker.Receive` | spy/mfcwatch.go:60 | a receive takes the head of the channel, and the channel is empty exactly when nothing can be received |
| `Tracker.ChannelIsFifo` | spy/mfcwatch.go:45-60 | a state sent into a non-full channel comes out behind everything already queued |
| `Tracker.Observe` | spy/mfcwatch.go:104-121 | a first sighting or a change of Vs enqueues exactly one event; equal Vs enqueues none; on success the entry is replaced; a full channel fails before the store and leaves the map as it was |
| `Tracker.MapDecoded` | spy/mfcwatch.go:95-123 | ServiceInfoError gives nil and no change; any other decode error is returned with no change; a level other than 4 changes nothing; a level-4 record is observed |
| `Tracker.ModelMapper` | spy/mfcwatch.go:95-123 | ServiceInfoError is never returned; a step that returns an error changes neither map nor channel; the step preserves the channel bound |
| `Tracker.EventsAreTransitions` | spy/mfcwatch.go:104-121 | over a run of records for one uid, the events enqueued are exactly the records whose Vs differs from the previous one, and the map ends on the last record |
| `Tracker.SteadyStatusIsSilent` | spy/mfcwatch.go:106-113 | records that repeat the stored Vs enqueue no event |
| `Tracker.OnlineAwayOnline` | spy/mfcwatch.go:104-120 | online, away, online on an unseen uid enqueues all three records, an instance of `EventsAreTransitions` showing that a return from away is reported again |
| `Tracker.OverflowKeepsOldEntry` | spy/mfcwatch.go:109-120 | when the channel is full, a change is reported as blocked and the stored entry stays the old one |
| `Watcher.RecordableIffOnlineOrUnseen` | spy/mfcwatch.go:66-67 | the current entry is recordable exactly when the uid is absent (zero value, Vs 0) or its stored Vs is online |
| `Watcher.HandleEvent` | spy/mfcwatch.go:64-73 | an event for another name is ignored; for the watched name, recordings start while each fresh look at the map finds the uid recordable, and stop at the first look that does not |
| `Watcher.ReadForever` | ws_client/client.go:308-325 | the loop never returns normally: it either stops on a handler error raised by some delivered line or spins |
| `Watcher.ReadForeverFixed` | ws_client/client.go:308-325 | the corrected loop returns when the channel closes, so it never spins |
| `Watcher.ClosedFeedSpins` | ws_client/client.go:312-317 | once the result channel has closed and no handler error came first, the loop spins |
| `Watcher.FixedReturnsOnClose` | ws_client/client.go:312-317 | the corrected loop ends in the same state, and returns exactly where the original spins |
| `Watcher.ReadForeverMissesTransportError` | ws_client/client.go:313-316 | a transport error recorded on close is never returned by the original loop, and is returned by the corrected one |
| `Watcher.MapperErrorEndsReading` | ws_client/client.go:318-321 | a mapper error on a line ends the read loop with that error and the map unchanged |
| `WsClient.LoginLineFields` | ws_client/client.go:201 | the login line splits into "1 0 0 20071025 0" and the session id followed by "@1/guest:guest" |
| `WsClient.ModelRequestFields` | ws_client/client.go:204-205 | the model request splits into 10, the token, 0, the decimal request id, 0 and the name |
| `WsClient.SubscribeLineFields` | ws_client/client.go:210 | the subscribe line splits into 44, the token, 0, 1, 0 |
| `WsClient.ParseToken` | ws_client/client.go:186-191 | a token is found exactly when the reply has five fields, and it is a whitespace-free word |
| `WsClient.ParseSession` | ws_client/client.go:195-200 | a session id is found exactly when the reply has six fields, and it is a whitespace-free word |
| `WsClient.TokenOfWellFormedReply` | ws_client/client.go:186-191 | in a reply of five words the token is the word at index 2 |
| `WsClient.SessionOfWellFormedReply` | ws_client/client.go:195-200 | in a reply of six words the session id is the word at index 5 |
| `WsClient.FirstKey` | ws_client/client.go:90-92 | the server chosen is a key of the server map; none is chosen only when no key is listed |
| `WsClient.GetWSServer` | ws_client/client.go:75-95 | a fetch or decode error is returned as is; a result is a key of the server map; the only other error is "no ws servers" |
| `WsClient.NoServersIffEmpty` | ws_client/client.go:90-94 | "no ws servers" is returned exactly when the map is empty |
| `WsClient.Attempt` | ws_client/client.go:128-215 | an attempt restarts exactly when the first reply has not five fields or the second has not six; a connection carries the parsed token and session, the request id is the time in whole seconds, and every later write succeeded; a failure is never the retry error |
| `WsClient.AttemptStepErrors` | ws_client/client.go:129-214 | the attempt stops at the first failing step with that step's own error: the challenge fetch, the server lookup, the dial, the greeting, the auth write when it is checked, the heartbeat, each read, the login, the model request and the subscribe; when no step fails, the attempt connects |
| `WsClient.Retry` | ws_client/client.go:120-127 | when every remaining attempt restarts, the result is "websocket error, try again" |
| `WsClient.RetryFirstSettled` | ws_client/client.go:120-217 | otherwise the result is that of the first attempt that does not restart, and every attempt before it restarted |
| `WsClient.RetryOnlySeesBudget` | ws_client/client.go:121-127 | two runs whose attempts within the budget end alike give the same result |
| `WsClient.TryAgainIffAllRestart` | ws_client/client.go:121-127 | "websocket error, try again" is returned exactly when all three attempts got a malformed reply |
| `WsClient.AtMostThreeAttempts` | ws_client/client.go:121-127 | the outcome depends only on the first three attempts' environments |
| `WsClient.FirstFailureIsFinal` | ws_client/client.go:129-143 | a failure of the challenge, server lookup, dial or a write in the first attempt is returned without a retry |
| `WsClient.ThreeMalformedGiveUp` | ws_client/client.go:121-127 | three attempts with malformed replies give "websocket error, try again" |
| `WsClient.CheckedConnectWroteEverything` | ws_client/client.go:173-175 | with the auth write checked, a connection implies every write of its attempt succeeded, the auth line included |
| `WsClient.AuthWriteFailureUndetected` | ws_client/client.go:173-175 | as written, a failed auth write still yields a connection; the checked version returns the write error |
| `WsServe.ServeSingle` | ws_client/client.go:263-283 | everything delivered either names the model or is the remembered line; the remembered line is the initial one or names the model |
| `WsServe.ServeSingleDelivers` | ws_client/client.go:263-283 | without a timer, the delivered lines are exactly the received lines that name the model and lack "%22vs%22:90", in order; the remembered line is the last one naming the model; the loop exits as the event stream dictates |
| `WsServe.TimerAfterArrivals` | ws_client/client.go:263-283 | when the timer fires after any run of received lines, the deliverable lines of the run have gone out, the timer hands over the last line of the run that named the model (or the old remembered line), and the loop goes on from that line |
| `WsServe.SuppressedLineReachesTimer` | ws_client/client.go:269-281 | after any run of received lines, a suppressed line that names the model is not handed over when it arrives and is exactly what the next timer delivers |
| `WsServe.TimerWithoutMatchDeliversEmpty` | ws_client/client.go:263-270 | when no line of the run before the timer named the model, the timer delivers the empty string and the loop goes on with nothing remembered |
| `WsServe.ServeAll` | ws_client/client.go:249-261 | in all-models mode every received line is forwarded, in order and unfiltered, until stop or a receive error |
| `Rtmp.RtmpUrlData` | rtmpdump/dumper.go:43-52 | RoomId is Uid+100000000 as uint64; SessionId and ModelId are Sid and Uid |
| `Rtmp.RtmpUrlDataParses` | rtmpdump/dumper.go:43-52 | the server number in the URL reads back as Camserv-500 in int32 arithmetic; the playpath reads back as that same RoomId |
| `Rtmp.TargetReadsRouting` | rtmpdump/dumper.go:43-52 | two records with the same Camserv, Uid and Sid get the same target |
| `Rtmp.TargetIgnoresHD` | rtmpdump/dumper.go:43-52 | the derived target does not depend on the flags, so HD is never consulted |
| `Rtmp.LowCamservGoesNegative` | rtmpdump/dumper.go:45 | a Camserv below 500 yields a negative server number; there is no sign check |
| `Rtmp.ParseBetweenFormat` | rtmpdump/dumper.go:21-22 | a number formatted into a URL or playpath template can be read back unchanged |
| `Rtmp.JsMatchAt` | rtmpdump/dumper.go:30 | a match starts with "(function(" and ends at a ")" |
| `Rtmp.JsMatchGreedy` | rtmpdump/dumper.go:30 | a match stays on its line and no ")" follows it there; there is no match exactly when the text does not open with "(function(" or its line has no ")" after the byte `.+` must take |
| `Rtmp.FindJs` | rtmpdump/dumper.go:69 | the script extracted is empty or a "(function(" ... ")" piece of the message on one line |
| `Rtmp.FirstMatchLeftmost` | rtmpdump/dumper.go:69 | no position before the one found matches, and none at all when none is found |
| `Rtmp.FindJsFrom` | rtmpdump/dumper.go:69 | scanning a suffix returns exactly the match at its leftmost matching position |
| `Rtmp.FindJsLeftmost` | rtmpdump/dumper.go:69 | the script extracted is the whole match at the leftmost position where the pattern matches |
| `Rtmp.FindJsEmptyIffNoMatch` | rtmpdump/dumper.go:69 | the script extracted is empty exactly when the pattern matches nowhere in the message |
| `Rtmp.OnReceived` | rtmpdump/dumper.go:66-106 | a login result sends one "_result" command with id 120781448 and objects nil and the script value, then signals ready, and a script failure is fatal; audio and video add their payload length and stamp the time, other types change nothing; the file is written last, only when present, with the message's bytes and timestamp; nothing else is emitted, so a completed call yields two actions for a login result plus one for a written media message |
| `Rtmp.ByteAccounting` | rtmpdump/dumper.go:92-105 | over a run of messages the counter grows by exactly the media payload bytes, and a run without media changes nothing |
| `Rtmp.NoDataAfterThirtySeconds` | rtmpdump/dumper.go:163 | the no-data exit fires exactly when a media packet has been seen and more than 30 seconds have passed since it |
| `Rtmp.WaitForCreateStreamReady` | rtmpdump/dumper.go:114-124 | nil on a signal; "streamReadyChan closed" on a closed channel; "streamReadyChan wait timeout" on timeout |
| `Rtmp.ChallengeAnswerSignalsReady` | rtmpdump/dumper.go:68-90 | the callback signals the ready channel exactly when the message holds a login result and its script ran |
| `Rtmp.SessionLoop` | rtmpdump/dumper.go:156-168 | the loop ends on close or on no data, never before playing; no-data needs a media packet first |
| `Rtmp.SessionLoopGoesOn` | rtmpdump/dumper.go:156-168 | a tick before the deadline or a callback that ran to its end is one pass of the loop, which then goes on with the updated handler |
| `Rtmp.SessionLoopRunsThrough` | rtmpdump/dumper.go:156-168 | events that all let the loop go on leave it running, with the handler the callbacks built |
| `Rtmp.SessionLoopResumes` | rtmpdump/dumper.go:156-168 | after events that let the loop go on, the loop ends as it would from the handler they built, with the same final handler |
| `Rtmp.SessionLoopStops` | rtmpdump/dumper.go:156-166 | the loop ends at the first event that does not let it go on: a close gives "Stream closed", the first tick past the deadline gives the no-data exit, a failed script gives the process exit |
| `Rtmp.NoDataNeedsMedia` | rtmpdump/dumper.go:163-166 | a session that receives no media never takes the no-data exit and leaves the handler as it was |
| `Rtmp.RecordStream` | rtmpdump/dumper.go:126-168 | after a dial the deferred close runs on every return; a fatal script error skips it, and so does a session whose events run out while it is still running; connect sends the token, the decimal room id and "DOWNLOAD"; play happens exactly when every step and wait succeeded, and then the error is nil; the dial, connect, ready wait, create-stream and stream wait each fail with their own error |
| `Decimal.ItoaRoundTrip` | ws_client/client.go:205 | a decimal rendering of any integer parses back to it |
| `Whitespace.FieldsJoinRoundTrip` | ws_client/client.go:187-196 | splitting space-joined words gives the words back, as both replies are split |
| `GoInt.BitAndPow2` | models/models.go:70 | AND with a power of two keeps exactly that bit |
| `Strings.RemoveAllSkips` | models/models.go:85 | a prefix in which no occurrence starts is kept unchanged by the removal |
| `Strings.RemoveAllLeading` | models/models.go:85 | an occurrence at the front is deleted and the removal resumes right after it |
| `Strings.RemoveShrinks` | models/models.go:85 | removing every occurrence of a non-empty text that is present makes the input strictly shorter |

## Left out

- Network I/O is not modelled. This covers the HTTP challenge and server-config fetches, websocket dial, send and receive, and the RTMP dial, connect, create-stream and play calls. Their outcomes are fields of `AttemptIO`, `SessionIO` and the event sequences.
- Goroutines and channels are not modelled as concurrent code. The state channel is a FIFO `seq`. Timers, `time.After`, the stop channel, `OnClosed` and the ready channel are explicit input events. The keepalive pinger goroutine, and its unsynchronised write to `err`, are not modelled.
- `ReadSingle` and `Close` are not modelled. They are one channel select with a timeout, and a one-shot stop.
- JSON encoding and decoding, `url.QueryEscape` and `url.QueryUnescape` are parameters. The auth payload is an uninterpreted escaped string. A `json.Marshal` failure on the fixed request structure cannot happen and is not modelled.
- goja script evaluation is a parameter. `log.Fatal` is modelled as a `Fatal` action that ends the process.
- The FLV sink is modelled as write actions.
- Floating point is not modelled. This covers the random nonce and the megabyte printout.
- Console output, `exitProgram`, the `main` functions, `rtmpdump/recorder.go`, `recorder/main.go`, `recorder/mfcdump.go` and `informer/info.go` are not part of this model. `recorder/main.go` (lines 76 and 80) and `informer/info.go` (lines 21 and 25) call a one-argument `CreateConnection` and a `WaitData` method that the client code does not define. `models.NotFoundError` and `models.NoPublicStreams`, which models/models.go does not define, are named at informer/info.go:69, recorder/mfcdump.go:21 and rtmpdump/recorder.go:49, and `models.NotFoundError` also at spy/mfcwatch.go:156, outside the functions modelled here.
- `Watcher.HandleEvent` does not perform a recording. Each recording is abstract. The map it finds after each recording is the input `looks`.
- `WsClient.GetWSServer` takes Go's unspecified map iteration order as an input list. It promises only that some key is chosen, as Go does.
- `Rtmp.OnReceived` counts bytes in an unbounded integer. It does not model the int64 wrap of `dataSize`, which would need more than 9 exabytes.
- `Rtmp.RecordStream` does not model that the unbuffered ready and close channels can block. Messages that arrive before play are not modelled. The shared `dataSize` counter is passed in rather than kept global. When a script failure ends the process during the session, the call never returns; the model reports that end with a nil error and the transport left open. When the events run out while the session still goes on, the Go call has not returned either; the model reports that end with a nil error and the transport still open.
- `Rtmp.SessionLoopResumes` does not relate the actions of a run to those of its parts; it states the end and the final handler.
- The AMF encoding of the challenge reply is not modelled. The reply is a `Command` value, and the fatal exit on an encoding error (dumper.go:84-87) is left out with it.
- `WsClient.Attempt` does not model the websocket connection that a restart leaves open.

## Findings

| source | as written | input that shows it | evidently intended | confidence | as-written member | corrected member |
|---|---|---|---|---|---|---|
| ws_client/client.go:173 | the result of sending the auth line is discarded, and the `if` tests the stale `err` from `json.Marshal`, which is nil | an attempt whose auth write fails while every other step succeeds; `CreateConnection` still returns a connection | a failed auth write returns its error, like every other write | high, not executed | `WsClient.AuthWriteFailureUndetected` | `WsClient.CheckedConnectWroteEverything` |
| ws_client/client.go:312-317 | when the result channel is closed, the `!ok` branch sets `err` but does not leave the loop, so the loop receives from the closed channel forever and never returns the transport error | a feed that closes with a receive error such as "EOF" | the loop returns the recorded transport error once the channel closes | high, not executed | `Watcher.ClosedFeedSpins` | `Watcher.FixedReturnsOnClose` |
