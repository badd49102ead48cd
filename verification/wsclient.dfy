/** The connection handshake of `ws_client/client.go`: `getWSServer`,
    the fixed line templates, and `CreateConnection`, whose `goto Start`
    becomes a recursion over an attempt budget of three. The network is
    not modelled: each attempt's I/O results arrive as an `AttemptIO`
    record, and `io(k)` is what the environment answers in attempt `k`. */
module WsClient {

  import opened Wrappers
  import opened GoInt
  import opened Decimal
  import opened Whitespace

  const MaxTries: nat := 3
  const TokenPosition: nat := 2
  const SessionPosition: nat := 5

  datatype ClientError =
    | TryAgain            // "websocket error, try again": the budget is spent
    | NoWsServers         // "no ws servers": the server list is empty
    | Io(msg: string)     // an error returned by HTTP, JSON or the websocket

  // ---- line templates ----

  const Greeting: string := "hello fcserver\n"
  const Heartbeat: string := "0 0 0 0 0\n"

  /** The auth request; `escaped` is the URL-escaped JSON challenge. */
  function AuthLine(escaped: string): string {
    "1 0 0 81 0 " + escaped + "\n"
  }

  /** The guest login carrying the negotiated session id. */
  function LoginLine(sid: string): string {
    "1 0 0 20071025 0 " + sid + "@1/guest:guest\n"
  }

  /** The model-data request for `name`. */
  function ModelRequestLine(token: string, requestId: int, name: string): string {
    "10 " + token + " 0 " + Itoa(requestId) + " 0 " + name + "\n"
  }

  /** The subscribe ("addme") line. */
  function SubscribeLine(token: string): string {
    "44 " + token + " 0 1 0\n"
  }

  function WsUrl(host: string): string {
    "wss://" + host + ".myfreecams.com/fcsl"
  }

  /** The login line splits into the five fixed fields and the guest
      identity built from the session id. */
  lemma LoginLineFields(sid: string)
    requires forall i :: 0 <= i < |sid| ==> !IsSpace(sid[i])
    ensures Fields(LoginLine(sid)) == ["1", "0", "0", "20071025", "0", sid + "@1/guest:guest"]
  {
    var guest := sid + "@1/guest:guest";
    var ws := ["1", "0", "0", "20071025", "0", guest];
    assert forall k :: 0 <= k < |ws| ==> IsWord(ws[k]) by {
      assert forall i :: |sid| <= i < |guest| ==> guest[i] == "@1/guest:guest"[i - |sid|];
      assert IsWord(guest);
    }
    assert LoginLine(sid) == JoinWords(ws) + "\n" by {
      JoinSix("1", "0", "0", "20071025", "0", guest);
      assert "1 0 0 20071025 0 " == "1" + " " + "0" + " " + "0" + " " + "20071025" + " " + "0" + " ";
      assert "@1/guest:guest\n" == "@1/guest:guest" + "\n";
    }
    FieldsOfLine(ws);
  }

  /** The model request splits back into token, request id and name, so
      the server sees each in its own field. */
  lemma ModelRequestFields(token: string, requestId: int, name: string)
    requires IsWord(token) && IsWord(name)
    ensures Fields(ModelRequestLine(token, requestId, name)) == ["10", token, "0", Itoa(requestId), "0", name]
  {
    var id := Itoa(requestId);
    var ws := ["10", token, "0", id, "0", name];
    assert forall k :: 0 <= k < |ws| ==> IsWord(ws[k]) by {
      ItoaNoSpace(requestId);
      assert IsWord(id);
    }
    assert ModelRequestLine(token, requestId, name) == JoinWords(ws) + "\n" by {
      JoinSix("10", token, "0", id, "0", name);
      assert "10 " == "10" + " ";
      assert " 0 " == " " + "0" + " ";
    }
    FieldsOfLine(ws);
  }

  /** The subscribe line carries the token as its second field. */
  lemma SubscribeLineFields(token: string)
    requires IsWord(token)
    ensures Fields(SubscribeLine(token)) == ["44", token, "0", "1", "0"]
  {
    var ws := ["44", token, "0", "1", "0"];
    assert SubscribeLine(token) == JoinWords(ws) + "\n" by {
      JoinFive("44", token, "0", "1", "0");
      assert "44 " == "44" + " ";
      assert " 0 1 0\n" == " " + "0" + " " + "1" + " " + "0" + "\n";
    }
    FieldsOfLine(ws);
  }

  // ---- the two handshake replies ----

  /** The first reply must have exactly five fields; the token is the
      third. */
  function ParseToken(reply: string): (r: Option<string>)
    ensures r.Some? <==> |Fields(reply)| == 5
    ensures r.Some? ==> IsWord(r.value)
  {
    var f := Fields(reply);
    if |f| == 5 then Some(f[TokenPosition]) else None
  }

  /** The second reply must have exactly six fields; the session id is
      the last. */
  function ParseSession(reply: string): (r: Option<string>)
    ensures r.Some? <==> |Fields(reply)| == 6
    ensures r.Some? ==> IsWord(r.value)
  {
    var f := Fields(reply);
    if |f| == 6 then Some(f[SessionPosition]) else None
  }

  /** A first reply of five words hands over its third word. */
  lemma TokenOfWellFormedReply(ws: seq<string>)
    requires |ws| == 5 && forall k :: 0 <= k < 5 ==> IsWord(ws[k])
    ensures ParseToken(JoinWords(ws)) == Some(ws[2])
  {
    FieldsJoinRoundTrip(ws);
  }

  /** A second reply of six words hands over its last word. */
  lemma SessionOfWellFormedReply(ws: seq<string>)
    requires |ws| == 6 && forall k :: 0 <= k < 6 ==> IsWord(ws[k])
    ensures ParseSession(JoinWords(ws)) == Some(ws[5])
  {
    FieldsJoinRoundTrip(ws);
  }

  // ---- getWSServer ----

  /** The decoded server list, with the order in which Go's `range`
      happens to visit its keys on this run. */
  datatype ServerConfig = ServerConfig(servers: map<string, string>, order: seq<string>)

  /** `order` is an enumeration of the keys, as `range` provides. */
  ghost predicate Enumerates(c: ServerConfig) {
    forall k :: k in c.order <==> k in c.servers
  }

  function FirstKey(servers: map<string, string>, order: seq<string>): (r: Option<string>)
    decreases |order|
    ensures r.Some? ==> r.value in servers && r.value in order
    ensures r.None? ==> forall k :: k in order ==> k !in servers
  {
    if |order| == 0 then None
    else if order[0] in servers then Some(order[0])
    else FirstKey(servers, order[1..])
  }

  /** `getWSServer`: the first key visited; an empty list is an error.
      `config` is the outcome of the HTTP fetch and JSON decode. */
  function GetWSServer(config: Result<ServerConfig, string>): (r: Result<string, ClientError>)
    ensures config.Err? ==> r == Err(Io(config.error))
    ensures r.Ok? ==> config.Ok? && r.value in config.value.servers
    ensures r.Err? && config.Ok? ==> r.error == NoWsServers
  {
    match config
    case Err(e) => Err(Io(e))
    case Ok(c) =>
      match FirstKey(c.servers, c.order)
      case Some(k) => Ok(k)
      case None => Err(NoWsServers)
  }

  /** With an honest enumeration, the lookup fails exactly when the list
      is empty. */
  lemma NoServersIffEmpty(c: ServerConfig)
    requires Enumerates(c)
    ensures GetWSServer(Ok(c)) == Err(NoWsServers) <==> |c.servers| == 0
    ensures |c.servers| > 0 ==> GetWSServer(Ok(c)).Ok?
  {
    if |c.servers| > 0 {
      var k :| k in c.servers;
      assert k in c.order;
    }
  }

  // ---- CreateConnection ----

  /** Everything the environment answers during one attempt. `challenge`
      is the escaped JSON auth payload built from the challenge fetch (or
      the fetch error); the `...Err` fields are the results of the
      websocket writes; `nowNanos` is the clock when the request id is
      taken. */
  datatype AttemptIO = AttemptIO(
    challenge: Result<string, string>,
    serverConfig: Result<ServerConfig, string>,
    dialErr: Option<string>,
    greetingErr: Option<string>,
    authErr: Option<string>,
    heartbeatErr: Option<string>,
    reply1: Result<string, string>,
    reply2: Result<string, string>,
    loginErr: Option<string>,
    requestErr: Option<string>,
    subscribeErr: Option<string>,
    nowNanos: int)

  /** The connector after a successful handshake, with every line the code
      sent, in order. */
  datatype Connection = Connection(
    url: string, token: string, session: string, requestId: int, sent: seq<string>)

  datatype AttemptOutcome = Connected(conn: Connection) | Restart | Failed(err: ClientError)

  /** Everything an attempt does before it reads the first reply went
      through. `checkAuth` says whether the auth send's error is looked
      at: the code as written does not look. */
  predicate PreludeOk(io: AttemptIO, checkAuth: bool) {
    Greeted(io, checkAuth) && io.reply1.Ok?
  }

  /** The challenge and the server lookup succeeded. */
  predicate LookedUp(io: AttemptIO) {
    io.challenge.Ok? && GetWSServer(io.serverConfig).Ok?
  }

  /** The dial and the three opening writes went through. */
  predicate Greeted(io: AttemptIO, checkAuth: bool) {
    && LookedUp(io)
    && io.dialErr.None?
    && io.greetingErr.None?
    && (checkAuth ==> io.authErr.None?)
    && io.heartbeatErr.None?
  }

  /** Both replies arrived and parsed. */
  predicate Identified(io: AttemptIO, checkAuth: bool) {
    && PreludeOk(io, checkAuth)
    && ParseToken(io.reply1.value).Some?
    && io.reply2.Ok?
    && ParseSession(io.reply2.value).Some?
  }

  /** One pass from `Start:` to the end of `CreateConnection`. */
  function Attempt(name: string, io: AttemptIO, checkAuth: bool): (r: AttemptOutcome)
    ensures r.Failed? ==> r.err != TryAgain
    ensures r.Restart? <==>
      PreludeOk(io, checkAuth)
      && (ParseToken(io.reply1.value).None?
          || (io.reply2.Ok? && ParseSession(io.reply2.value).None?))
    ensures r.Connected? ==>
      && PreludeOk(io, checkAuth)
      && io.reply2.Ok?
      && ParseToken(io.reply1.value) == Some(r.conn.token)
      && ParseSession(io.reply2.value) == Some(r.conn.session)
      && io.loginErr.None? && io.requestErr.None? && io.subscribeErr.None?
      && r.conn.requestId == TruncDiv(io.nowNanos, 1_000_000_000)
      && r.conn.sent == [
           Greeting, AuthLine(io.challenge.value), Heartbeat,
           LoginLine(r.conn.session),
           ModelRequestLine(r.conn.token, r.conn.requestId, name),
           SubscribeLine(r.conn.token)]
  {
    match io.challenge
    case Err(e) => Failed(Io(e))
    case Ok(escaped) =>
      match GetWSServer(io.serverConfig)
      case Err(e) => Failed(e)
      case Ok(host) =>
        if io.dialErr.Some? then Failed(Io(io.dialErr.value))
        else if io.greetingErr.Some? then Failed(Io(io.greetingErr.value))
        else if checkAuth && io.authErr.Some? then Failed(Io(io.authErr.value))
        else if io.heartbeatErr.Some? then Failed(Io(io.heartbeatErr.value))
        else match io.reply1
          case Err(e) => Failed(Io(e))
          case Ok(first) =>
            match ParseToken(first)
            case None => Restart
            case Some(token) =>
              match io.reply2
              case Err(e) => Failed(Io(e))
              case Ok(second) =>
                match ParseSession(second)
                case None => Restart
                case Some(sid) =>
                  if io.loginErr.Some? then Failed(Io(io.loginErr.value))
                  else
                    var requestId := TruncDiv(io.nowNanos, 1_000_000_000);
                    if io.requestErr.Some? then Failed(Io(io.requestErr.value))
                    else if io.subscribeErr.Some? then Failed(Io(io.subscribeErr.value))
                    else Connected(Connection(
                      WsUrl(host), token, sid, requestId,
                      [Greeting, AuthLine(escaped), Heartbeat, LoginLine(sid),
                       ModelRequestLine(token, requestId, name), SubscribeLine(token)]))
  }

  /** The attempt stops at the first step that fails, with that step's own
      error: the challenge fetch, the server lookup, the dial, each write
      whose error is looked at, and each read. */
  lemma AttemptStepErrors(name: string, io: AttemptIO, checkAuth: bool)
    ensures io.challenge.Err? ==> Attempt(name, io, checkAuth) == Failed(Io(io.challenge.error))
    ensures io.challenge.Ok? && GetWSServer(io.serverConfig).Err? ==>
      Attempt(name, io, checkAuth) == Failed(GetWSServer(io.serverConfig).error)
    ensures LookedUp(io) && io.dialErr.Some? ==>
      Attempt(name, io, checkAuth) == Failed(Io(io.dialErr.value))
    ensures LookedUp(io) && io.dialErr.None? && io.greetingErr.Some? ==>
      Attempt(name, io, checkAuth) == Failed(Io(io.greetingErr.value))
    ensures LookedUp(io) && io.dialErr.None? && io.greetingErr.None? && checkAuth && io.authErr.Some? ==>
      Attempt(name, io, checkAuth) == Failed(Io(io.authErr.value))
    ensures (LookedUp(io) && io.dialErr.None? && io.greetingErr.None? && (checkAuth ==> io.authErr.None?)
      && io.heartbeatErr.Some?) ==>
      Attempt(name, io, checkAuth) == Failed(Io(io.heartbeatErr.value))
    ensures Greeted(io, checkAuth) && io.reply1.Err? ==>
      Attempt(name, io, checkAuth) == Failed(Io(io.reply1.error))
    ensures PreludeOk(io, checkAuth) && ParseToken(io.reply1.value).Some? && io.reply2.Err? ==>
      Attempt(name, io, checkAuth) == Failed(Io(io.reply2.error))
    ensures Identified(io, checkAuth) && io.loginErr.Some? ==>
      Attempt(name, io, checkAuth) == Failed(Io(io.loginErr.value))
    ensures Identified(io, checkAuth) && io.loginErr.None? && io.requestErr.Some? ==>
      Attempt(name, io, checkAuth) == Failed(Io(io.requestErr.value))
    ensures Identified(io, checkAuth) && io.loginErr.None? && io.requestErr.None? && io.subscribeErr.Some? ==>
      Attempt(name, io, checkAuth) == Failed(Io(io.subscribeErr.value))
    // and when no step fails, the attempt connects
    ensures Identified(io, checkAuth) && io.loginErr.None? && io.requestErr.None? && io.subscribeErr.None? ==>
      Attempt(name, io, checkAuth).Connected?
  {
  }

  /** Attempts `from` up to `to` (exclusive) all asked for a restart. */
  predicate AllRestart(outcome: nat -> AttemptOutcome, from: nat, to: nat) {
    forall j :: from <= j < to ==> outcome(j).Restart?
  }

  /** What `CreateConnection` returns after an attempt that did not ask
      for a restart. */
  function Settle(o: AttemptOutcome): Result<Connection, ClientError>
    requires !o.Restart?
  {
    if o.Connected? then Ok(o.conn) else Err(o.err)
  }

  /** The `goto Start` loop of `CreateConnection`: `outcome(k)` is how
      attempt `k` ended, and `tries` passes have been made. */
  function Retry(outcome: nat -> AttemptOutcome, tries: nat): (r: Result<Connection, ClientError>)
    decreases if tries <= MaxTries then MaxTries - tries else 0
    ensures AllRestart(outcome, tries, MaxTries) ==> r == Err(TryAgain)
  {
    if tries + 1 > MaxTries then Err(TryAgain)
    else if outcome(tries).Restart? then Retry(outcome, tries + 1)
    else Settle(outcome(tries))
  }

  /** Unless every remaining attempt restarts, the result is that of the
      first attempt that does not. */
  lemma {:induction false} RetryFirstSettled(outcome: nat -> AttemptOutcome, tries: nat)
    ensures !AllRestart(outcome, tries, MaxTries) ==> exists k :: (tries <= k < MaxTries
      && AllRestart(outcome, tries, k)
      && !outcome(k).Restart?
      && Retry(outcome, tries) == Settle(outcome(k)))
    decreases if tries <= MaxTries then MaxTries - tries else 0
  {
    if tries < MaxTries && !AllRestart(outcome, tries, MaxTries) {
      if outcome(tries).Restart? {
        RetryFirstSettled(outcome, tries + 1);
        assert !AllRestart(outcome, tries + 1, MaxTries);
        var k :| tries + 1 <= k < MaxTries && AllRestart(outcome, tries + 1, k)
          && !outcome(k).Restart? && Retry(outcome, tries + 1) == Settle(outcome(k));
        assert AllRestart(outcome, tries, k);
      } else {
        assert AllRestart(outcome, tries, tries);
      }
    }
  }

  /** Two outcome sequences that agree on the attempts still allowed give
      the same result. */
  lemma {:induction false} RetryOnlySeesBudget(o1: nat -> AttemptOutcome, o2: nat -> AttemptOutcome, tries: nat)
    requires forall k: nat :: tries <= k < MaxTries ==> o1(k) == o2(k)
    ensures Retry(o1, tries) == Retry(o2, tries)
    decreases if tries <= MaxTries then MaxTries - tries else 0
  {
    if tries < MaxTries {
      assert o1(tries) == o2(tries);
      RetryOnlySeesBudget(o1, o2, tries + 1);
    }
  }

  /** An attempt that does not restart settles the result at once. */
  lemma RetryFirstAttempt(outcome: nat -> AttemptOutcome)
    requires !outcome(0).Restart?
    ensures Retry(outcome, 0) == Settle(outcome(0))
  {
  }

  /** How each attempt ends, in the environment `io`. */
  function Outcomes(name: string, io: nat -> AttemptIO, checkAuth: bool): nat -> AttemptOutcome {
    (k: nat) => Attempt(name, io(k), checkAuth)
  }

  /** `CreateConnection(modelName, allFlag)` as written (`allFlag` only
      selects the serving mode, see the serving module). */
  function CreateConnection(name: string, io: nat -> AttemptIO): Result<Connection, ClientError> {
    Retry(Outcomes(name, io, false), 0)
  }

  /** `CreateConnection` with the auth send's error checked. */
  function CreateConnectionChecked(name: string, io: nat -> AttemptIO): Result<Connection, ClientError> {
    Retry(Outcomes(name, io, true), 0)
  }

  /** "websocket error, try again" comes back exactly when all three
      attempts got a malformed reply: no attempt fails with it. */
  lemma TryAgainIffAllRestart(name: string, io: nat -> AttemptIO, checkAuth: bool)
    ensures Retry(Outcomes(name, io, checkAuth), 0) == Err(TryAgain)
      <==> forall k: nat :: k < MaxTries ==> Attempt(name, io(k), checkAuth).Restart?
  {
    var o := Outcomes(name, io, checkAuth);
    RetryFirstSettled(o, 0);
    if !AllRestart(o, 0, MaxTries) {
      var k :| 0 <= k < MaxTries && !o(k).Restart? && Retry(o, 0) == Settle(o(k));
      assert o(k) == Attempt(name, io(k), checkAuth);
    } else {
      forall k: nat | k < MaxTries ensures Attempt(name, io(k), checkAuth).Restart? {
        assert o(k).Restart?;
      }
    }
  }

  /** Only the first three attempts are ever made: what the environment
      would answer in a fourth makes no difference. */
  lemma AtMostThreeAttempts(name: string, io1: nat -> AttemptIO, io2: nat -> AttemptIO, checkAuth: bool)
    requires forall k: nat :: k < MaxTries ==> io1(k) == io2(k)
    ensures Retry(Outcomes(name, io1, checkAuth), 0) == Retry(Outcomes(name, io2, checkAuth), 0)
  {
    var o1, o2 := Outcomes(name, io1, checkAuth), Outcomes(name, io2, checkAuth);
    forall k: nat | k < MaxTries ensures o1(k) == o2(k) {
      assert io1(k) == io2(k);
    }
    RetryOnlySeesBudget(o1, o2, 0);
  }

  /** A failure that is not a malformed reply ends the connect at once,
      without a second attempt. */
  lemma FirstFailureIsFinal(name: string, io: nat -> AttemptIO)
    requires Attempt(name, io(0), false).Failed?
    ensures CreateConnection(name, io) == Err(Attempt(name, io(0), false).err)
  {
  }

  /** Three malformed exchanges in a row exhaust the budget. */
  lemma ThreeMalformedGiveUp(name: string, io: nat -> AttemptIO)
    requires forall k: nat :: k < MaxTries ==> Attempt(name, io(k), false).Restart?
    ensures CreateConnection(name, io) == Err(TryAgain)
  {
  }

  /** With the auth send checked, a connection means every write of the
      handshake went through. */
  lemma CheckedConnectWroteEverything(name: string, io: nat -> AttemptIO)
    requires CreateConnectionChecked(name, io).Ok?
    ensures exists k: nat :: (k < MaxTries
      && io(k).dialErr.None? && io(k).greetingErr.None? && io(k).authErr.None?
      && io(k).heartbeatErr.None? && io(k).loginErr.None?
      && io(k).requestErr.None? && io(k).subscribeErr.None?)
  {
    var o := Outcomes(name, io, true);
    RetryFirstSettled(o, 0);
    var k :| 0 <= k < MaxTries && !o(k).Restart? && Retry(o, 0) == Settle(o(k));
    assert o(k) == Attempt(name, io(k), true);
  }

  /** An environment whose only fault is a failed auth write. */
  function AuthWriteFails(k: nat): AttemptIO {
    AttemptIO(
      Ok("payload"),
      Ok(ServerConfig(map["xchat1" := "ws"], ["xchat1"])),
      None, None, Some("broken pipe"), None,
      Ok(JoinWords(["0", "0", "token", "0", "0"])),
      Ok(JoinWords(["0", "0", "0", "0", "0", "sid"])),
      None, None, None,
      0)
  }

  /** The replies of that environment are well formed. */
  lemma SampleRepliesParse()
    ensures ParseToken(AuthWriteFails(0).reply1.value) == Some("token")
    ensures ParseSession(AuthWriteFails(0).reply2.value) == Some("sid")
  {
    assert IsWord("0") && IsWord("token") && IsWord("sid");
    TokenOfWellFormedReply(["0", "0", "token", "0", "0"]);
    SessionOfWellFormedReply(["0", "0", "0", "0", "0", "sid"]);
  }

  /** The code as written connects although the auth line never left; the
      checked version reports the write error. */
  lemma AuthWriteFailureUndetected(name: string)
    ensures CreateConnection(name, AuthWriteFails).Ok?
    ensures CreateConnectionChecked(name, AuthWriteFails) == Err(Io("broken pipe"))
  {
    var io := AuthWriteFails(0);
    assert Attempt(name, io, false).Connected? by {
      SampleRepliesParse();
      assert GetWSServer(io.serverConfig) == Ok("xchat1");
    }
    assert Attempt(name, io, true) == Failed(Io("broken pipe")) by {
      assert GetWSServer(io.serverConfig) == Ok("xchat1");
    }
    RetryFirstAttempt(Outcomes(name, AuthWriteFails, false));
    RetryFirstAttempt(Outcomes(name, AuthWriteFails, true));
  }

}
