/** The public entry points: `MinecraftServer` (Java Edition: ping, status, query, SRV
    lookup) and `MinecraftBedrockServer`, each operation retried three times. DNS answers,
    received bytes, random tokens and measured latencies are parameters. */
module Server {
  import opened Wrappers
  import opened Bytes
  import opened Text
  import opened Protocol
  import opened Json
  import Pinger
  import Querier
  import Bedrock
  import opened Utils

  // ---------------------------------------------------------------- construction

  /** A Python value passed as host or port: only its class matters to validation. */
  datatype PyObject = PyStr(s: string) | PyInt(i: int) | PyBool(b: bool) | PyOther

  /** The integer a value stands for when `isinstance(v, int)` holds; `bool` is a subclass
      of `int`, so True is 1 and False is 0. */
  function AsInt(o: PyObject): (r: Option<int>)
    ensures r.Some? <==> o.PyInt? || o.PyBool?
    ensures o.PyInt? ==> r == Some(o.i)
    ensures o.PyBool? ==> r == Some(if o.b then 1 else 0)
  {
    match o
    case PyInt(i) => Some(i)
    case PyBool(b) => Some(if b then 1 else 0)
    case _ => None
  }

  /** `ensure_valid`: a string host and an integer port within 0..65535; a TypeError for a
      host or port of the wrong class, checked in that order, and a ValueError for a port out
      of range. */
  function EnsureValid(host: PyObject, port: PyObject): (r: Outcome<(string, int)>)
    ensures r.Success? <==> host.PyStr? && AsInt(port).Some? && 0 <= AsInt(port).value <= 65535
    ensures r.Success? ==> r.value == (host.s, AsInt(port).value)
    ensures !host.PyStr? ==> r == Failure(TypeError)
    ensures host.PyStr? && AsInt(port).None? ==> r == Failure(TypeError)
    ensures host.PyStr? && AsInt(port).Some? && !(0 <= AsInt(port).value <= 65535)
            ==> r == Failure(PortOutOfRange(AsInt(port).value))
  {
    if !host.PyStr? then Failure(TypeError)
    else
      match AsInt(port)
      case None => Failure(TypeError)
      case Some(p) => if p > 65535 || p < 0 then Failure(PortOutOfRange(p)) else Success((host.s, p))
  }

  const JavaDefaultPort: int := 25565
  const BedrockDefaultPort: int := 19132
  const DefaultTimeout: real := 3.0

  datatype MinecraftServer = MinecraftServer(host: string, port: int, timeout: real)

  /** `MinecraftServer(host, port=25565, timeout=3)`. */
  function NewJavaServer(host: PyObject, port: Option<PyObject>, timeout: Option<real>): (r: Outcome<MinecraftServer>)
    ensures host.PyStr? && port.None? ==> r == Success(MinecraftServer(host.s, 25565, if timeout.Some? then timeout.value else 3.0))
    ensures r.Success? ==> host == PyStr(r.value.host) && 0 <= r.value.port <= 65535
    ensures r.Success? && port.Some? ==> AsInt(port.value) == Some(r.value.port)
    ensures r.Success? <==> host.PyStr? && (port.None? || EnsureValid(host, port.value).Success?)
    ensures r.Failure? ==> if port.Some? then EnsureValid(host, port.value) == Failure(r.error) else r.error == TypeError
  {
    var (h, p) :- EnsureValid(host, if port.Some? then port.value else PyInt(JavaDefaultPort));
    Success(MinecraftServer(h, p, if timeout.Some? then timeout.value else DefaultTimeout))
  }

  datatype MinecraftBedrockServer = MinecraftBedrockServer(host: string, port: int, timeout: real)

  /** `MinecraftBedrockServer(host, port=19132, timeout=3)`. */
  function NewBedrockServer(host: PyObject, port: Option<PyObject>, timeout: Option<real>): (r: Outcome<MinecraftBedrockServer>)
    ensures host.PyStr? && port.None? ==> r == Success(MinecraftBedrockServer(host.s, 19132, if timeout.Some? then timeout.value else 3.0))
    ensures r.Success? ==> host == PyStr(r.value.host) && 0 <= r.value.port <= 65535
    ensures r.Success? && port.Some? ==> AsInt(port.value) == Some(r.value.port)
    ensures r.Success? <==> host.PyStr? && (port.None? || EnsureValid(host, port.value).Success?)
    ensures r.Failure? ==> if port.Some? then EnsureValid(host, port.value) == Failure(r.error) else r.error == TypeError
  {
    var (h, p) :- EnsureValid(host, if port.Some? then port.value else PyInt(BedrockDefaultPort));
    Success(MinecraftBedrockServer(h, p, if timeout.Some? then timeout.value else DefaultTimeout))
  }

  // ---------------------------------------------------------------- address lookup

  /** What a DNS query gave: an answer, NXDOMAIN, or any other resolver failure. */
  datatype Resolution<T> = Answer(value: T) | NxDomain | ResolverError(reason: string)

  predicate IsDot(c: char) { c == '.' }

  /** `lookup(address)` once `parse_address` has split it into `host` and `port`: a port in
      the address is used as it is and no DNS query is made; otherwise the SRV record of
      `_minecraft._tcp.host` gives the target, without its trailing dots, and the port; with
      no such record the default port is used; other resolver errors propagate. */
  function Lookup(host: string, port: Option<int>, timeout: real, srv: Resolution<(string, int)>): (r: Outcome<MinecraftServer>)
    ensures port.Some? && 0 <= port.value <= 65535 ==> r == Success(MinecraftServer(host, port.value, timeout))
    ensures port.Some? && !(0 <= port.value <= 65535) ==> r == Failure(PortOutOfRange(port.value))
    ensures port.None? && srv.NxDomain? ==> r == Success(MinecraftServer(host, 25565, timeout))
    ensures port.None? && srv.ResolverError? ==> r == Failure(DnsFailure(srv.reason))
    ensures port.None? && srv.Answer? && 0 <= srv.value.1 <= 65535
            ==> r == Success(MinecraftServer(RStrip(srv.value.0, IsDot), srv.value.1, timeout))
    ensures port.None? && srv.Answer? && r.Success? ==> |r.value.host| == 0 || r.value.host[|r.value.host| - 1] != '.'
  {
    if port.Some? then NewJavaServer(PyStr(host), Some(PyInt(port.value)), Some(timeout))
    else
      match srv
      case Answer((target, p)) => NewJavaServer(PyStr(RStrip(target, IsDot)), Some(PyInt(p)), Some(timeout))
      case NxDomain => NewJavaServer(PyStr(host), None, Some(timeout))
      case ResolverError(reason) => Failure(DnsFailure(reason))
  }

  /** An address with a port never depends on what DNS would say. */
  lemma LookupIgnoresDns(host: string, port: int, timeout: real, a: Resolution<(string, int)>, b: Resolution<(string, int)>)
    ensures Lookup(host, Some(port), timeout, a) == Lookup(host, Some(port), timeout, b)
  {
  }

  /** `MinecraftBedrockServer.lookup`: no DNS, and the default port when none is given. */
  function BedrockLookup(host: string, port: Option<int>): (r: Outcome<MinecraftBedrockServer>)
    ensures port.None? ==> r == Success(MinecraftBedrockServer(host, 19132, 3.0))
    ensures port.Some? && 0 <= port.value <= 65535 ==> r == Success(MinecraftBedrockServer(host, port.value, 3.0))
    ensures port.Some? && !(0 <= port.value <= 65535) ==> r == Failure(PortOutOfRange(port.value))
  {
    if port.None? then NewBedrockServer(PyStr(host), None, None)
    else NewBedrockServer(PyStr(host), Some(PyInt(port.value)), None)
  }

  /** The address `query()` connects to: the A record without trailing dots, or the host
      itself when there is no record (it may already be an IP address). */
  function QueryAddress(host: string, a: Resolution<string>): (r: Outcome<string>)
    ensures a.Answer? ==> r == Success(RStrip(a.value, IsDot))
    ensures a.NxDomain? ==> r == Success(host)
    ensures a.ResolverError? ==> r == Failure(DnsFailure(a.reason))
  {
    match a
    case Answer(ip) => Success(RStrip(ip, IsDot))
    case NxDomain => Success(host)
    case ResolverError(reason) => Failure(DnsFailure(reason))
  }

  // ---------------------------------------------------------------- ping and status

  /** The keyword arguments passed on to `ServerPinger`. */
  datatype PingOptions = PingOptions(version: int, token: Option<int>)

  const DefaultOptions := PingOptions(Pinger.DefaultProtocol, None)

  /** A token `random.randint(0, 2**63 - 1)` can return. */
  type Token = t: int | 0 <= t < 0x8000_0000_0000_0000

  /** The one TCP connection every attempt of a ping or status call shares, and the number of
      attempts made on it so far. */
  datatype Session = Session(conn: Connection, attempt: nat)

  /** `longer` starts with `shorter`: nothing already written is taken back. */
  predicate Extends(longer: seq<byte>, shorter: seq<byte>)
  {
    |shorter| <= |longer| && longer[..|shorter|] == shorter
  }

  lemma ExtendsAppend(a: seq<byte>, x: seq<byte>)
    ensures Extends(a + x, a)
  {
    assert (a + x)[..|a|] == a;
  }

  lemma ExtendsTrans(a: seq<byte>, b: seq<byte>, c: seq<byte>)
    requires Extends(c, b) && Extends(b, a)
    ensures Extends(c, a)
  {
    assert c[..|a|] == c[..|b|][..|a|];
  }

  /** What a ping or status call works with besides the connection: the server, the pinger
      options, the token `random.randint` draws for attempt `k` and the round trip attempt `k`
      measures, attempts counted from 1. */
  datatype Client = Client(server: MinecraftServer, options: PingOptions, randoms: nat -> Token, latencies: nat -> real)

  /** The pinger of one attempt: a new `ServerPinger` per attempt, with a fresh random token
      unless one was given. */
  function PingerFor(cl: Client, k: nat): (p: Pinger.ServerPinger)
    ensures p.host == cl.server.host && p.port == cl.server.port && p.version == cl.options.version
    ensures cl.options.token.Some? ==> p.token == cl.options.token.value
    ensures cl.options.token.None? ==> p.token == cl.randoms(k)
  {
    Pinger.NewPinger(cl.server.host, cl.server.port, cl.options.version, cl.options.token, cl.randoms(k))
  }

  /** `Handshake` of a pinger, leaving the connection as it was when it fails. */
  function HandshakeStep(p: Pinger.ServerPinger, c: Connection): (r: Step<()>)
    ensures Extends(r.conn.sent, c.sent)
    ensures r.result.Success? <==> Pinger.Handshake(p, c).Success?
    ensures r.result.Success? ==> r.conn == Pinger.Handshake(p, c).value
  {
    match Pinger.Handshake(p, c)
    case Failure(e) => Step(Failure(e), c)
    case Success(c1) =>
      ExtendsAppend(c.sent, BufferFrame(Pinger.HandshakePacket(p).value).value);
      Step(Success(()), c1)
  }

  /** `test_ping`, which writes a ping frame or nothing. */
  function PingStep(p: Pinger.ServerPinger, c: Connection, latency: real): (r: Step<real>)
    ensures r == Pinger.TestPing(p, c, latency)
    ensures Extends(r.conn.sent, c.sent)
    ensures r.result.Success? ==> r.result.value == latency
  {
    var r := Pinger.TestPing(p, c, latency);
    if Pinger.PingFrame(p.token).Success? then ExtendsAppend(c.sent, Pinger.PingFrame(p.token).value); r else r
  }

  /** One attempt of `_retry_ping`: handshake, then ping. */
  function PingAttempt(cl: Client, s: Session): (r: (Outcome<real>, Session))
    ensures r.1.attempt == s.attempt + 1
    ensures Extends(r.1.conn.sent, s.conn.sent)
    ensures r.0.Success? ==> r.0.value == cl.latencies(r.1.attempt)
  {
    var k := s.attempt + 1;
    var p := PingerFor(cl, k);
    var Step(handshake, c1) := HandshakeStep(p, s.conn);
    match handshake
    case Failure(e) => (Failure(e), Session(c1, k))
    case Success(_) =>
      var Step(latency, c2) := PingStep(p, c1, cl.latencies(k));
      ExtendsTrans(s.conn.sent, c1.sent, c2.sent);
      (latency, Session(c2, k))
  }

  /** The number of attempts `retry` makes with `tries` given: none below 1. */
  function Attempts(tries: int): (n: nat)
    ensures tries >= 1 ==> n == tries
    ensures tries < 1 ==> n == 0
  {
    if tries < 1 then 0 else tries
  }

  /** The loop of `retry` around ping attempts on one connection, with `n` attempts left:
      every exception is caught, so it stops at the first success. */
  function PingFrom(n: nat, cl: Client, s: Session, last: Option<Error>): (r: Retried<Session, real>)
    ensures r.calls <= n && (r.calls == 0 <==> n == 0)
    ensures n == 0 ==> r == Retried(Failure(if last.Some? then last.value else Unbound), s, 0)
    ensures r.state.attempt == s.attempt + r.calls
    ensures Extends(r.state.conn.sent, s.conn.sent)
    ensures r.calls < n ==> r.result.Success?
    ensures r.result.Success? ==> r.calls >= 1 && r.result.value == cl.latencies(r.state.attempt)
    decreases n
  {
    if n == 0 then Retried(Failure(if last.Some? then last.value else Unbound), s, 0)
    else
      var (o, s1) := PingAttempt(cl, s);
      if o.Success? then Retried(o, s1, 1)
      else
        var r := PingFrom(n - 1, cl, s1, Some(o.error));
        ExtendsTrans(s.conn.sent, s1.conn.sent, r.state.conn.sent);
        Retried(r.result, r.state, r.calls + 1)
  }

  /** `ping(tries=…)`: up to three attempts (or the given number) on one connection; a
      successful result is the latency the last attempt measured. */
  function Ping(cl: Client, tries: Option<int>, c: Connection): (r: Retried<Session, real>)
    ensures r.state.attempt == r.calls
    ensures EffectiveTries(3, tries) >= 1 ==> 1 <= r.calls <= EffectiveTries(3, tries)
    ensures EffectiveTries(3, tries) < 1 ==> r == Retried(Failure(Unbound), Session(c, 0), 0)
    ensures Extends(r.state.conn.sent, c.sent)
    ensures r.calls < EffectiveTries(3, tries) ==> r.result.Success?
    ensures r.result.Success? ==> r.calls >= 1 && r.result.value == cl.latencies(r.calls)
  {
    PingFrom(Attempts(EffectiveTries(3, tries)), cl, Session(c, 0), None)
  }

  /** The attempts of `_retry_ping` as one function of the session. */
  function PingAttempts(cl: Client): (f: Session -> (Outcome<real>, Session))
    ensures forall s :: f(s) == PingAttempt(cl, s)
  {
    s => PingAttempt(cl, s)
  }

  /** The ping loop as one function of the attempts left, the session and the last error. */
  function PingLoop(cl: Client): (loop: (nat, Session, Option<Error>) -> Retried<Session, real>)
    ensures forall m, s, last :: loop(m, s, last) == PingFrom(m, cl, s, last)
  {
    (m: nat, s: Session, last: Option<Error>) => PingFrom(m, cl, s, last)
  }

  /** Each step of the ping loop is a step of `retry`'s loop. */
  lemma PingLoopStep(cl: Client, m: nat, s: Session, last: Option<Error>)
    ensures PingLoop(cl)(m, s, last) == CatchAllStep(PingLoop(cl), PingAttempts(cl), m, s, last)
  {
    if m > 0 {
      var (o, s1) := PingAttempt(cl, s);
      assert PingAttempts(cl)(s) == (o, s1);
      if o.Failure? {
        assert PingLoop(cl)(m - 1, s1, Some(o.error)) == PingFrom(m - 1, cl, s1, Some(o.error));
      }
    }
  }

  /** The ping loop is `retry`'s loop around ping attempts. */
  lemma PingFromIsRetry(n: nat, cl: Client, s: Session, last: Option<Error>)
    ensures PingFrom(n, cl, s, last) == RetryFrom(n, CatchAll, PingAttempts(cl), s, last)
  {
    var loop := PingLoop(cl);
    forall m: nat, s0: Session, l: Option<Error> ensures loop(m, s0, l) == CatchAllStep(loop, PingAttempts(cl), m, s0, l) {
      PingLoopStep(cl, m, s0, l);
    }
    LoopIsRetry(loop, PingAttempts(cl), n, s, last);
  }

  /** So `ping` is `@retry(tries=3)` applied to the ping attempts, sharing one connection. */
  lemma PingIsRetry(cl: Client, tries: Option<int>, c: Connection)
    ensures Ping(cl, tries, c) == Retry(EffectiveTries(3, tries), CatchAll, PingAttempts(cl), Session(c, 0))
  {
    PingFromIsRetry(Attempts(EffectiveTries(3, tries)), cl, Session(c, 0), None);
  }

  /** `read_status`, whose response never carries a latency yet. */
  function StatusStep(c: Connection, parseJson: string -> Option<Value>): (r: Step<Pinger.PingResponse>)
    ensures r == Pinger.ReadStatus(c, parseJson)
    ensures Extends(r.conn.sent, c.sent)
    ensures r.result.Success? ==> r.result.value.latency.None?
    ensures r.result.Success? ==> Pinger.ParsePingResponse(r.result.value.raw) == Success(r.result.value)
  {
    ExtendsAppend(c.sent, Pinger.StatusRequest);
    Pinger.ReadStatus(c, parseJson)
  }

  /** The status response with the measured latency filled in. */
  function WithLatency(response: Pinger.PingResponse, latency: real): (r: Pinger.PingResponse)
    requires Pinger.ParsePingResponse(response.raw) == Success(response)
    ensures r.latency == Some(latency)
    ensures Pinger.ParsePingResponse(r.raw) == Success(r.(latency := None))
  {
    response.(latency := Some(latency))
  }

  /** One attempt of `_retry_status`: handshake, status request, then ping, whose latency
      is stored in the response. */
  function StatusAttempt(cl: Client, parseJson: string -> Option<Value>, s: Session)
    : (r: (Outcome<Pinger.PingResponse>, Session))
    ensures r.1.attempt == s.attempt + 1
    ensures Extends(r.1.conn.sent, s.conn.sent)
    ensures r.0.Success? ==> r.0.value.latency == Some(cl.latencies(r.1.attempt))
    ensures r.0.Success? ==> Pinger.ParsePingResponse(r.0.value.raw) == Success(r.0.value.(latency := None))
  {
    var k := s.attempt + 1;
    var p := PingerFor(cl, k);
    var Step(handshake, c1) := HandshakeStep(p, s.conn);
    if handshake.Failure? then (Failure(handshake.error), Session(c1, k))
    else
      var Step(status, c2) := StatusStep(c1, parseJson);
      ExtendsTrans(s.conn.sent, c1.sent, c2.sent);
      if status.Failure? then (Failure(status.error), Session(c2, k))
      else
        var Step(latency, c3) := PingStep(p, c2, cl.latencies(k));
        ExtendsTrans(s.conn.sent, c2.sent, c3.sent);
        if latency.Failure? then (Failure(latency.error), Session(c3, k))
        else (Success(WithLatency(status.value, latency.value)), Session(c3, k))
  }

  /** The loop of `retry` around status attempts on one connection, with `n` attempts left. */
  function StatusFrom(n: nat, cl: Client, parseJson: string -> Option<Value>, s: Session, last: Option<Error>)
    : (r: Retried<Session, Pinger.PingResponse>)
    ensures r.calls <= n && (r.calls == 0 <==> n == 0)
    ensures n == 0 ==> r == Retried(Failure(if last.Some? then last.value else Unbound), s, 0)
    ensures r.state.attempt == s.attempt + r.calls
    ensures Extends(r.state.conn.sent, s.conn.sent)
    ensures r.calls < n ==> r.result.Success?
    ensures r.result.Success? ==> r.calls >= 1 && r.result.value.latency == Some(cl.latencies(r.state.attempt))
    ensures r.result.Success? ==> Pinger.ParsePingResponse(r.result.value.raw) == Success(r.result.value.(latency := None))
    decreases n
  {
    if n == 0 then Retried(Failure(if last.Some? then last.value else Unbound), s, 0)
    else
      var (o, s1) := StatusAttempt(cl, parseJson, s);
      if o.Success? then Retried(o, s1, 1)
      else
        var r := StatusFrom(n - 1, cl, parseJson, s1, Some(o.error));
        ExtendsTrans(s.conn.sent, s1.conn.sent, r.state.conn.sent);
        Retried(r.result, r.state, r.calls + 1)
  }

  /** `status(tries=…)`: up to three attempts (or the given number) on one connection; a
      successful result carries the latency its last attempt measured and is otherwise the
      parse of the JSON it holds. */
  function Status(cl: Client, tries: Option<int>, parseJson: string -> Option<Value>, c: Connection)
    : (r: Retried<Session, Pinger.PingResponse>)
    ensures r.state.attempt == r.calls
    ensures EffectiveTries(3, tries) >= 1 ==> 1 <= r.calls <= EffectiveTries(3, tries)
    ensures EffectiveTries(3, tries) < 1 ==> r == Retried(Failure(Unbound), Session(c, 0), 0)
    ensures Extends(r.state.conn.sent, c.sent)
    ensures r.calls < EffectiveTries(3, tries) ==> r.result.Success?
    ensures r.result.Success? ==> r.calls >= 1 && r.result.value.latency == Some(cl.latencies(r.calls))
    ensures r.result.Success? ==> Pinger.ParsePingResponse(r.result.value.raw) == Success(r.result.value.(latency := None))
  {
    StatusFrom(Attempts(EffectiveTries(3, tries)), cl, parseJson, Session(c, 0), None)
  }

  /** The attempts of `_retry_status` as one function of the session. */
  function StatusAttempts(cl: Client, parseJson: string -> Option<Value>): (f: Session -> (Outcome<Pinger.PingResponse>, Session))
    ensures forall s :: f(s) == StatusAttempt(cl, parseJson, s)
  {
    s => StatusAttempt(cl, parseJson, s)
  }

  /** The status loop as one function of the attempts left, the session and the last error. */
  function StatusLoop(cl: Client, parseJson: string -> Option<Value>): (loop: (nat, Session, Option<Error>) -> Retried<Session, Pinger.PingResponse>)
    ensures forall m, s, last :: loop(m, s, last) == StatusFrom(m, cl, parseJson, s, last)
  {
    (m: nat, s: Session, last: Option<Error>) => StatusFrom(m, cl, parseJson, s, last)
  }

  /** Each step of the status loop is a step of `retry`'s loop. */
  lemma StatusLoopStep(cl: Client, parseJson: string -> Option<Value>, m: nat, s: Session, last: Option<Error>)
    ensures StatusLoop(cl, parseJson)(m, s, last) == CatchAllStep(StatusLoop(cl, parseJson), StatusAttempts(cl, parseJson), m, s, last)
  {
    if m > 0 {
      var (o, s1) := StatusAttempt(cl, parseJson, s);
      assert StatusAttempts(cl, parseJson)(s) == (o, s1);
      if o.Failure? {
        assert StatusLoop(cl, parseJson)(m - 1, s1, Some(o.error)) == StatusFrom(m - 1, cl, parseJson, s1, Some(o.error));
      }
    }
  }

  /** The status loop is `retry`'s loop around status attempts. */
  lemma StatusFromIsRetry(n: nat, cl: Client, parseJson: string -> Option<Value>, s: Session, last: Option<Error>)
    ensures StatusFrom(n, cl, parseJson, s, last) == RetryFrom(n, CatchAll, StatusAttempts(cl, parseJson), s, last)
  {
    var loop := StatusLoop(cl, parseJson);
    forall m: nat, s0: Session, l: Option<Error> ensures loop(m, s0, l) == CatchAllStep(loop, StatusAttempts(cl, parseJson), m, s0, l) {
      StatusLoopStep(cl, parseJson, m, s0, l);
    }
    LoopIsRetry(loop, StatusAttempts(cl, parseJson), n, s, last);
  }

  /** So `status` is `@retry(tries=3)` applied to the status attempts, sharing one connection. */
  lemma StatusIsRetry(cl: Client, tries: Option<int>, parseJson: string -> Option<Value>, c: Connection)
    ensures Status(cl, tries, parseJson, c) == Retry(EffectiveTries(3, tries), CatchAll, StatusAttempts(cl, parseJson), Session(c, 0))
  {
    StatusFromIsRetry(Attempts(EffectiveTries(3, tries)), cl, parseJson, Session(c, 0), None);
  }

  // ---------------------------------------------------------------- query

  /** The two datagrams the server sends in one query attempt: the challenge reply and the
      full-stat reply. */
  datatype Replies = Replies(challenge: seq<byte>, stat: seq<byte>)

  /** A new querier's challenge request: FE FD 09, session id 0, challenge 0. */
  function ChallengeOpening(): (r: seq<byte>)
    ensures Querier.CreatePacket(Querier.NewQuerier, Querier.ChallengeType) == Success(r)
  {
    assert Int.Fits(0);
    Querier.CreatePacket(Querier.NewQuerier, Querier.ChallengeType).value
  }

  predicate OpensWithChallengeRequest(written: seq<byte>)
  {
    Extends(written, ChallengeOpening())
  }

  /** One exchange of `_retry_query` on a new UDP connection with a new querier, so a
      challenge handshake from scratch, then the full-stat request: its outcome and every
      byte it wrote. */
  function QueryExchange(replies: Replies): (r: (Outcome<Querier.QueryResponse>, seq<byte>))
  {
    var Step(handshake, c1) := Querier.Handshake(Querier.NewQuerier, Connection([], replies.challenge));
    match handshake
    case Failure(e) => (Failure(e), c1.sent)
    case Success(q) =>
      var Step(response, c2) := Querier.ReadQuery(q, Receive(c1, replies.stat));
      (response, c2.sent)
  }

  /** Every exchange opens with the challenge request of a querier whose challenge is still
      0, whatever an earlier attempt learned: no attempt reuses another's challenge. */
  lemma QueryExchangeOpens(replies: Replies)
    ensures OpensWithChallengeRequest(QueryExchange(replies).1)
  {
    var opening := ChallengeOpening();
    var Step(handshake, c1) := Querier.Handshake(Querier.NewQuerier, Connection([], replies.challenge));
    assert c1.sent == opening;
    ExtendsAppend(opening, []);
    assert opening + [] == opening;
    if handshake.Success? {
      var q := handshake.value;
      var c2 := Querier.ReadQuery(q, Receive(c1, replies.stat)).conn;
      if Querier.QueryRequest(q).Success? {
        ExtendsAppend(opening, Querier.QueryRequest(q).value);
      }
    }
  }

  /** `query()`: the address lookup, which is not retried, then up to three attempts, attempt
      `k` (counting from 1) receiving `replies(k)`. Since each attempt starts afresh, the
      outcome is the outcome of the last attempt's exchange alone, whatever the earlier
      attempts received. */
  function Query(server: MinecraftServer, a: Resolution<string>, replies: nat -> Replies)
    : (r: Outcome<(string, Retried<nat, Querier.QueryResponse>)>)
    ensures a.ResolverError? ==> r == Failure(DnsFailure(a.reason))
    ensures r.Success? <==> !a.ResolverError?
    ensures r.Success? ==> r.value.0 == QueryAddress(server.host, a).value
    ensures r.Success? ==> 1 <= r.value.1.calls <= 3 && r.value.1.state == r.value.1.calls
    ensures r.Success? ==> r.value.1.result == QueryExchange(replies(r.value.1.calls)).0
  {
    var ip :- QueryAddress(server.host, a);
    Success((ip, QueryAttempts(replies)))
  }

  /** The three attempts of `_retry_query`: attempt `k` is a fresh exchange on `replies(k)`,
      and an attempt is made only when every earlier one failed. */
  function QueryAttempts(replies: nat -> Replies): (r: Retried<nat, Querier.QueryResponse>)
    ensures 1 <= r.calls <= 3 && r.state == r.calls
    ensures r.result == QueryExchange(replies(r.calls)).0
    ensures r.calls < 3 ==> r.result.Success?
    ensures r.calls >= 2 ==> QueryExchange(replies(1)).0.Failure?
    ensures r.calls == 3 ==> QueryExchange(replies(2)).0.Failure?
  {
    ThreeTries(QueryExchange(replies(1)).0, QueryExchange(replies(2)).0, QueryExchange(replies(3)).0)
  }

  // ---------------------------------------------------------------- Bedrock status

  /** `MinecraftBedrockServer.status(tries=…)`: up to three attempts (or the given number),
      attempt `k` (counting from 1) receiving `datagrams(k)` after `latencies(k)`. */
  function BedrockStatus(server: MinecraftBedrockServer, tries: Option<int>, datagrams: nat -> seq<byte>,
                         latencies: nat -> real): (r: Retried<nat, Bedrock.BedrockStatusResponse>)
    ensures EffectiveTries(3, tries) < 1 ==> r == Retried(Failure(Unbound), 0, 0)
    ensures EffectiveTries(3, tries) >= 1 ==> 1 <= r.calls <= EffectiveTries(3, tries) && r.state == r.calls
    ensures EffectiveTries(3, tries) >= 1 ==> r.result == BedrockAttempt(server, datagrams(r.calls), latencies(r.calls))
    ensures r.calls < EffectiveTries(3, tries) ==> r.result.Success?
    ensures forall k :: 1 <= k < r.calls ==> BedrockAttempt(server, datagrams(k), latencies(k)).Failure?
  {
    BedrockRetry(server, EffectiveTries(3, tries), datagrams, latencies);
    Retry(EffectiveTries(3, tries), CatchAll, BedrockAttempts(server, datagrams, latencies), 0)
  }

  /** `retry` over the Bedrock attempts, read attempt by attempt. */
  lemma BedrockRetry(server: MinecraftBedrockServer, tries: int, datagrams: nat -> seq<byte>, latencies: nat -> real)
    ensures var r := Retry(tries, CatchAll, BedrockAttempts(server, datagrams, latencies), 0);
      (tries >= 1 ==> r.state == r.calls && r.result == BedrockAttempt(server, datagrams(r.calls), latencies(r.calls))) &&
      (forall k :: 1 <= k < r.calls ==> BedrockAttempt(server, datagrams(k), latencies(k)).Failure?)
  {
    var f := BedrockAttempts(server, datagrams, latencies);
    var r := Retry(tries, CatchAll, f, 0);
    CountedRetry(tries, f);
    if tries >= 1 {
      assert f(r.calls - 1) == BedrockCall(server, datagrams, latencies, r.calls - 1);
    }
    forall k | 1 <= k < r.calls
      ensures BedrockAttempt(server, datagrams(k), latencies(k)).Failure?
    {
      assert f(k - 1) == BedrockCall(server, datagrams, latencies, k - 1);
    }
  }

  /** The attempts of the Bedrock status as one function of the calls made so far: the call
      after `k` of them is attempt `k + 1`. */
  function BedrockAttempts(server: MinecraftBedrockServer, datagrams: nat -> seq<byte>, latencies: nat -> real)
    : (f: nat -> (Outcome<Bedrock.BedrockStatusResponse>, nat))
    ensures forall k: nat :: f(k) == BedrockCall(server, datagrams, latencies, k)
  {
    k => BedrockCall(server, datagrams, latencies, k)
  }

  /** The call after `k` calls: attempt `k + 1`, and the count it leaves. */
  function BedrockCall(server: MinecraftBedrockServer, datagrams: nat -> seq<byte>, latencies: nat -> real, k: nat)
    : (Outcome<Bedrock.BedrockStatusResponse>, nat)
  {
    (BedrockAttempt(server, datagrams(k + 1), latencies(k + 1)), k + 1)
  }

  /** One attempt of the Bedrock status: a new `BedrockServerStatus`, whose reply is cut to
      the 2048 bytes `recvfrom` keeps. */
  function BedrockAttempt(server: MinecraftBedrockServer, datagram: seq<byte>, latency: real)
    : (r: Outcome<Bedrock.BedrockStatusResponse>)
    ensures r == Bedrock.ParseResponse(if |datagram| <= 2048 then datagram else datagram[..2048], latency)
  {
    Bedrock.ReadStatus(Bedrock.BedrockServerStatus(server.host, server.port, server.timeout), datagram, latency).1
  }

  // ---------------------------------------------------------------- three fresh attempts

  /** `@retry(tries=3)` around three attempts that start afresh each time and give `first`,
      `second` and `third`; the state counts the calls. Every exception is caught, so the
      calls stop at the first success. */
  function ThreeTries<T>(first: Outcome<T>, second: Outcome<T>, third: Outcome<T>): (r: Retried<nat, T>)
    ensures r.state == r.calls && (r.calls == 1 || r.calls == 2 || r.calls == 3)
    ensures r.calls == 1 <==> first.Success?
    ensures r.calls == 1 ==> r.result == first
    ensures r.calls == 2 ==> first.Failure? && second.Success? && r.result == second
    ensures r.calls == 3 ==> first.Failure? && second.Failure? && r.result == third
  {
    if first.Success? then Retried(first, 1, 1)
    else if second.Success? then Retried(second, 2, 2)
    else Retried(third, 3, 3)
  }

  /** Three attempts that count themselves: attempt `k`, counting from 0, gives the `k`-th
      outcome. */
  function Counting<T>(first: Outcome<T>, second: Outcome<T>, third: Outcome<T>): (f: nat -> (Outcome<T>, nat))
    ensures f(0) == (first, 1) && f(1) == (second, 2) && f(2) == (third, 3)
  {
    k => (if k == 0 then first else if k == 1 then second else third, k + 1)
  }

  /** The three tries are `retry`'s loop with three attempts. */
  lemma ThreeTriesIsRetry<T>(first: Outcome<T>, second: Outcome<T>, third: Outcome<T>)
    ensures ThreeTries(first, second, third) == Retry(3, CatchAll, Counting(first, second, third), 0)
  {
    var f := Counting(first, second, third);
    var r := RetryFrom(3, CatchAll, f, 0, None);
    if first.Failure? {
      assert r == var r2 := RetryFrom(2, CatchAll, f, 1, Some(first.error)); Retried(r2.result, r2.state, r2.calls + 1);
      if second.Failure? {
        assert RetryFrom(2, CatchAll, f, 1, Some(first.error)) == var r1 := RetryFrom(1, CatchAll, f, 2, Some(second.error));
          Retried(r1.result, r1.state, r1.calls + 1);
        if third.Failure? {
          assert RetryFrom(1, CatchAll, f, 2, Some(second.error)) == var r0 := RetryFrom(0, CatchAll, f, 3, Some(third.error));
            Retried(r0.result, r0.state, r0.calls + 1);
        }
      }
    }
  }

  /** After `k` attempts that each count themselves from 0, the count is `k`. */
  lemma {:induction false} CountedAfter<T>(f: nat -> (Outcome<T>, nat), k: nat)
    requires forall j: nat :: f(j).1 == j + 1
    ensures After(f, 0, k) == k
  {
    if k > 0 {
      CountedAfter(f, k - 1);
    }
  }

  /** `retry` over attempts that start afresh and count themselves: the state is the number of
      calls, the result is the last call's, and every earlier call failed. */
  lemma CountedRetry<T>(tries: int, f: nat -> (Outcome<T>, nat))
    requires forall j: nat :: f(j).1 == j + 1
    ensures var r := Retry(tries, CatchAll, f, 0);
      (tries >= 1 ==> r.state == r.calls && r.result == f(r.calls - 1).0) &&
      (forall k: nat :: k < r.calls - 1 ==> f(k).0.Failure?)
  {
    var r := Retry(tries, CatchAll, f, 0);
    RetryTrace(tries, CatchAll, f, 0);
    if tries >= 1 {
      CountedAfter(f, r.calls);
      CountedAfter(f, r.calls - 1);
    }
    forall k: nat | k < r.calls - 1
      ensures f(k).0.Failure?
    {
      CountedAfter(f, k);
      assert Retryable(CatchAll, OutcomeAt(f, 0, k));
    }
  }

  // ---------------------------------------------------------------- servers that answer, and one that does not

  /** A server that echoes the ping request answers the first attempt: `ping` returns that
      attempt's latency after writing the handshake `hs` and the ping request `frame`, and
      leaves whatever follows the echo unread. */
  lemma PingEchoed(cl: Client, hs: seq<byte>, frame: seq<byte>, sent: seq<byte>, received: seq<byte>, rest: seq<byte>)
    requires Pinger.Handshake(PingerFor(cl, 1), Fresh) == Success(Connection(hs, []))
    requires Pinger.PingFrame(PingerFor(cl, 1).token) == Success(frame)
    requires received == frame + rest
    ensures Ping(cl, None, Connection(sent, received))
         == Retried(Success(cl.latencies(1)), Session(Connection(sent + hs + frame, rest), 1), 1)
  {
    var p := PingerFor(cl, 1);
    HandshakeWritten(p, Connection(sent, received));
    Pinger.PingEcho(p, sent + hs, rest, cl.latencies(1));
  }

  /** A server that sends the status document `text` in the frame `reply` and then echoes the
      ping answers the first attempt: `status` returns the validated document with that
      attempt's latency after writing the handshake, the status request and the ping request. */
  lemma StatusAnswered(cl: Client, parseJson: string -> Option<Value>, hs: seq<byte>, frame: seq<byte>, text: string,
                       reply: seq<byte>, raw: Value, status: Pinger.PingResponse, sent: seq<byte>, after: seq<byte>,
                       rest: seq<byte>)
    requires Pinger.Handshake(PingerFor(cl, 1), Fresh) == Success(Connection(hs, []))
    requires Pinger.PingFrame(PingerFor(cl, 1).token) == Success(frame)
    requires UtfFrame(text).Success? && BufferFrame(VarintFrame(0).value + UtfFrame(text).value) == Success(reply)
    requires parseJson(text) == Some(raw) && Pinger.ParsePingResponse(raw) == Success(status)
    requires after == frame + rest
    ensures Status(cl, None, parseJson, Connection(sent, reply + after))
         == Retried(Success(status.(latency := Some(cl.latencies(1)))),
                    Session(Connection(sent + hs + Pinger.StatusRequest + frame, rest), 1), 1)
  {
    StatusAttemptAnswered(cl, parseJson, hs, frame, text, reply, raw, status, sent, after, rest);
  }

  /** The first attempt of `status` against that server. */
  lemma StatusAttemptAnswered(cl: Client, parseJson: string -> Option<Value>, hs: seq<byte>, frame: seq<byte>, text: string,
                              reply: seq<byte>, raw: Value, status: Pinger.PingResponse, sent: seq<byte>, after: seq<byte>,
                       rest: seq<byte>)
    requires Pinger.Handshake(PingerFor(cl, 1), Fresh) == Success(Connection(hs, []))
    requires Pinger.PingFrame(PingerFor(cl, 1).token) == Success(frame)
    requires UtfFrame(text).Success? && BufferFrame(VarintFrame(0).value + UtfFrame(text).value) == Success(reply)
    requires parseJson(text) == Some(raw) && Pinger.ParsePingResponse(raw) == Success(status)
    requires after == frame + rest
    ensures StatusAttempt(cl, parseJson, Session(Connection(sent, reply + after), 0))
         == (Success(status.(latency := Some(cl.latencies(1)))), Session(Connection(sent + hs + Pinger.StatusRequest + frame, rest), 1))
  {
    var p := PingerFor(cl, 1);
    HandshakeWritten(p, Connection(sent, reply + after));
    StatusRead(sent + hs, text, raw, after, parseJson);
    Pinger.PingEcho(p, sent + hs + Pinger.StatusRequest, rest, cl.latencies(1));
  }

  /** A handshake that can be built is written in full, whatever the connection holds. */
  lemma HandshakeWritten(p: Pinger.ServerPinger, c: Connection)
    requires Pinger.Handshake(p, Fresh).Success?
    ensures HandshakeStep(p, c) == Step(Success(()), Connection(c.sent + Pinger.Handshake(p, Fresh).value.sent, c.received))
  {
    var hs := BufferFrame(Pinger.HandshakePacket(p).value).value;
    assert [] + hs == hs;
  }

  /** The status read against a reply holding the status document `text`. */
  lemma StatusRead(sent: seq<byte>, text: string, raw: Value, rest: seq<byte>, parseJson: string -> Option<Value>)
    requires UtfFrame(text).Success? && parseJson(text) == Some(raw) && Pinger.ParsePingResponse(raw).Success?
    requires BufferFrame(VarintFrame(0).value + UtfFrame(text).value).Success?
    ensures StatusStep(Connection(sent, BufferFrame(VarintFrame(0).value + UtfFrame(text).value).value + rest), parseJson)
         == Step(Success(Pinger.ParsePingResponse(raw).value), Connection(sent + Pinger.StatusRequest, rest))
  {
    var body := VarintFrame(0).value + UtfFrame(text).value;
    Pinger.ReadStatusRoundTrip(Connection(sent, BufferFrame(body).value + rest), body, rest, parseJson);
    Pinger.StatusReplyRoundTrip(text, raw, parseJson);
  }

  /** Against a server that sends nothing, a ping attempt fails and leaves nothing to read. */
  lemma PingAttemptSilent(cl: Client, s: Session)
    requires s.conn.received == []
    ensures PingAttempt(cl, s).0.Failure? && PingAttempt(cl, s).1.conn.received == []
  {
  }

  /** So every attempt fails, and all of them are made. */
  lemma {:induction false} PingFromSilent(n: nat, cl: Client, s: Session, last: Option<Error>)
    requires s.conn.received == []
    ensures PingFrom(n, cl, s, last).calls == n
    ensures n > 0 ==> PingFrom(n, cl, s, last).result.Failure?
    decreases n
  {
    if n > 0 {
      PingAttemptSilent(cl, s);
      var (o, s1) := PingAttempt(cl, s);
      PingFromSilent(n - 1, cl, s1, Some(o.error));
    }
  }

  /** Against a server that sends nothing, a status attempt fails and leaves nothing to read. */
  lemma StatusAttemptSilent(cl: Client, parseJson: string -> Option<Value>, s: Session)
    requires s.conn.received == []
    ensures StatusAttempt(cl, parseJson, s).0.Failure? && StatusAttempt(cl, parseJson, s).1.conn.received == []
  {
  }

  lemma {:induction false} StatusFromSilent(n: nat, cl: Client, parseJson: string -> Option<Value>, s: Session,
                                            last: Option<Error>)
    requires s.conn.received == []
    ensures StatusFrom(n, cl, parseJson, s, last).calls == n
    ensures n > 0 ==> StatusFrom(n, cl, parseJson, s, last).result.Failure?
    decreases n
  {
    if n > 0 {
      StatusAttemptSilent(cl, parseJson, s);
      var (o, s1) := StatusAttempt(cl, parseJson, s);
      StatusFromSilent(n - 1, cl, parseJson, s1, Some(o.error));
    }
  }

  /** A server that sends the decimal challenge `n` and then a full-stat reply: the exchange
      writes the challenge request and the full-stat request carrying `n`, and its outcome
      is the response built from the reply's fields and players. */
  lemma QueryExchangeAnswered(n: int, header: seq<byte>, statHeader: seq<byte>, padding: seq<byte>,
                              pairs: seq<(string, string)>, skip: byte, marker: seq<byte>, names: seq<string>,
                              tail: seq<byte>)
    requires Int.Fits(n) && |header| == 5 && |statHeader| == 5
    requires |padding| == 11 && |marker| == 9 && Querier.PairsOk(pairs) && Querier.NamesOk(names)
    ensures AsciiFrame(FormatInt(n)).Success?
    ensures QueryExchange(Replies(header + AsciiFrame(FormatInt(n)).value,
                                  statHeader + Querier.StatBody(padding, pairs, skip, marker, names, tail)))
         == (Querier.MakeResponse(Querier.Collect(map[], pairs), names),
             ChallengeOpening() + Querier.QueryRequest(Querier.ServerQuerier(n)).value)
  {
    var challenge := header + AsciiFrame(FormatInt(n)).value;
    var stat := statHeader + Querier.StatBody(padding, pairs, skip, marker, names, tail);
    var q := Querier.ServerQuerier(n);
    ChallengeAnswered(n, header);
    Querier.ReadQueryRoundTrip(q, ChallengeOpening(), statHeader, padding, pairs, skip, marker, names, tail);
    QueryExchangeSteps(Replies(challenge, stat));
  }

  /** A fresh querier's handshake with a server that sends the decimal challenge `n`. */
  lemma ChallengeAnswered(n: int, header: seq<byte>)
    requires |header| == 5
    ensures AsciiFrame(FormatInt(n)).Success?
    ensures Querier.Handshake(Querier.NewQuerier, Connection([], header + AsciiFrame(FormatInt(n)).value))
         == Step(Success(Querier.ServerQuerier(n)), Connection(ChallengeOpening(), []))
  {
    var challenge := header + AsciiFrame(FormatInt(n)).value;
    Querier.HandshakeRoundTrip(Querier.NewQuerier, [], header, n, []);
    assert challenge + [] == challenge;
  }

  /** An exchange whose handshake succeeded and consumed the challenge datagram is the
      full-stat read that follows it, on the bytes the handshake wrote; a failed handshake ends
      the exchange with its error, a successful exchange had a successful handshake, and a built
      request follows the handshake's bytes. */
  lemma QueryExchangeSteps(replies: Replies)
    ensures var h := Querier.Handshake(Querier.NewQuerier, Connection([], replies.challenge));
      h.result.Failure? ==> QueryExchange(replies) == (Failure(h.result.error), h.conn.sent)
    ensures var h := Querier.Handshake(Querier.NewQuerier, Connection([], replies.challenge));
      h.result.Success? && Querier.QueryRequest(h.result.value).Success? ==>
        QueryExchange(replies).1 == h.conn.sent + Querier.QueryRequest(h.result.value).value
    ensures QueryExchange(replies).0.Success? ==>
      var h := Querier.Handshake(Querier.NewQuerier, Connection([], replies.challenge));
      h.result.Success? && Querier.ReadQuery(h.result.value, Receive(h.conn, replies.stat)).result == QueryExchange(replies).0
    ensures var Step(h, c1) := Querier.Handshake(Querier.NewQuerier, Connection([], replies.challenge));
      h.Success? && c1.received == [] ==>
        QueryExchange(replies) == (Querier.ReadQuery(h.value, Connection(c1.sent, replies.stat)).result,
                                   Querier.ReadQuery(h.value, Connection(c1.sent, replies.stat)).conn.sent)
  {
    assert [] + replies.stat == replies.stat;
  }

  /** A server that never answers the challenge makes `query` try three times and fail. */
  lemma QuerySilent(server: MinecraftServer, a: Resolution<string>, replies: nat -> Replies)
    requires !a.ResolverError?
    requires replies(1).challenge == [] && replies(2).challenge == [] && replies(3).challenge == []
    ensures Query(server, a, replies).Success?
    ensures Query(server, a, replies).value.1.calls == 3 && Query(server, a, replies).value.1.result.Failure?
  {
  }
}
