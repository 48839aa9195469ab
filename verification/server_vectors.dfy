/** The exchanges of mcstatus/tests/test_server.py: a server on "localhost", port 25565,
    pinged with protocol 47 and token 29704774, whose replies are given as bytes. */
module ServerVectors {
  import opened Wrappers
  import opened Bytes
  import Utf8
  import Text
  import opened Json
  import opened Protocol
  import opened Utils
  import opened Server
  import Pinger
  import Querier
  import PingerVectors
  import QuerierVectors

  /** The client of those tests, whatever tokens and latencies it would draw. */
  function TestClient(randoms: nat -> Token, latencies: nat -> real): Client
  {
    Client(MinecraftServer("localhost", 25565, DefaultTimeout), PingOptions(47, Some(29704774)), randoms, latencies)
  }

  const TestPinger: Pinger.ServerPinger := Pinger.ServerPinger("localhost", 25565, 47, 29704774)

  /** 0F 00 2F 09 "localhost" 63 DD 01: the handshake for protocol 47. */
  const HandshakeBytes: seq<byte> := [0x0F, 0x00, 0x2F, 0x09, 0x6C, 0x6F, 0x63, 0x61, 0x6C, 0x68, 0x6F, 0x73, 0x74, 0x63, 0xDD, 0x01]

  const TokenBytes: seq<byte> := [0x00, 0x00, 0x00, 0x00, 0x01, 0xC5, 0x42, 0x46]

  /** 09 01 00 00 00 00 01 C5 42 46: the ping request carrying token 29704774, and its echo. */
  const Echo: seq<byte> := [0x09, 0x01, 0x00, 0x00, 0x00, 0x00, 0x01, 0xC5, 0x42, 0x46]

  /** Every attempt of the test client uses the same pinger, since its token is fixed. */
  lemma TestPingerFixed(randoms: nat -> Token, latencies: nat -> real, k: nat)
    ensures PingerFor(TestClient(randoms, latencies), k) == TestPinger
  {
  }

  lemma TestHandshake()
    ensures Pinger.Handshake(TestPinger, Fresh) == Success(Connection(HandshakeBytes, []))
  {
    PingerVectors.LocalhostHandshake(47, 29704774);
    HandshakeBytesConcat();
  }

  lemma HandshakeBytesConcat()
    ensures [0x0F] + PingerVectors.LocalhostBody(47) == HandshakeBytes
  {
  }

  lemma TestEcho()
    ensures Pinger.PingFrame(29704774) == Success(Echo)
  {
    TokenPacked();
    Pinger.PingFrameBytes(29704774, TokenBytes);
    EchoConcat();
  }

  lemma EchoConcat()
    ensures [0x09, 0x01] + TokenBytes == Echo
  {
  }

  lemma TokenPacked()
    ensures Pack(Long, 29704774) == Success(TokenBytes)
  {
    Pinger.LongRange();
    Pow256Four();
    assert Pow256(8) == 0x1_0000_0000_0000_0000 by { assert Pow256(6) == 0x1_0000_0000_0000; }
    assert EncodeBE(0, 4) == [0x00, 0x00, 0x00, 0x00] by {
      assert EncodeBE(0, 2) == [0x00, 0x00];
      assert EncodeBE(0, 3) == [0x00, 0x00, 0x00];
    }
    assert EncodeBE(0x01, 5) == [0x00, 0x00, 0x00, 0x00, 0x01];
    assert EncodeBE(0x01C5, 6) == [0x00, 0x00, 0x00, 0x00, 0x01, 0xC5];
    assert EncodeBE(0x01C542, 7) == [0x00, 0x00, 0x00, 0x00, 0x01, 0xC5, 0x42];
    assert EncodeBE(29704774, 8) == TokenBytes;
  }

  /** `test_ping`: the server echoes the request, so `ping` returns the first attempt's
      latency, after flushing the handshake and the ping request. */
  lemma PingVector(randoms: nat -> Token, latencies: nat -> real)
    ensures Ping(TestClient(randoms, latencies), None, Connection([], Echo))
         == Retried(Success(latencies(1)), Session(Connection(HandshakeBytes + Echo, []), 1), 1)
  {
    TestPingerFixed(randoms, latencies, 1);
    TestHandshake();
    TestEcho();
    EchoedFromStart(TestClient(randoms, latencies), HandshakeBytes, Echo);
  }

  /** A fresh connection whose server sends only the echo. */
  lemma EchoedFromStart(cl: Client, hs: seq<byte>, frame: seq<byte>)
    requires Pinger.Handshake(PingerFor(cl, 1), Fresh) == Success(Connection(hs, []))
    requires Pinger.PingFrame(PingerFor(cl, 1).token) == Success(frame)
    ensures Ping(cl, None, Connection([], frame)) == Retried(Success(cl.latencies(1)), Session(Connection(hs + frame, []), 1), 1)
  {
    assert frame == frame + [];
    PingEchoed(cl, hs, frame, [], frame, []);
    assert [] + hs + frame == hs + frame;
}

  /** The document of `test_status`: players 0 of 20, version "1.8" (protocol 47), motd
      "A Minecraft Server", no favicon. */
  const StatusDocument: Value :=
    Pinger.StatusJson(Pinger.Players(0, 20, None), Pinger.Version("1.8", 47), JString("A Minecraft Server"), None)

  /** The frame 6D 00 6B holding a status document of 107 bytes. */
  lemma StatusFrame(text: string)
    requires |Utf8.Encode(text)| == 0x6B
    ensures UtfFrame(text).Success?
    ensures BufferFrame(VarintFrame(0).value + UtfFrame(text).value) == Success([0x6D, 0x00, 0x6B] + Utf8.Encode(text))
  {
    SmallVarint(0);
    SmallVarint(0x6B);
    var body := [0x00] + ([0x6B] + Utf8.Encode(text));
    SmallBufferFrame(body);
    assert [0x6D] + body == [0x6D, 0x00, 0x6B] + Utf8.Encode(text);
  }

  /** The document validated, before a latency is filled in. */
  const StatusResponse: Pinger.PingResponse :=
    Pinger.PingResponse(StatusDocument, Pinger.Players(0, 20, None), Pinger.Version("1.8", 47),
                        JString("A Minecraft Server"), None, None)

  lemma DocumentParsed()
    ensures Pinger.ParsePingResponse(StatusDocument) == Success(StatusResponse)
  {
    Pinger.ParseStatusJson(Pinger.Players(0, 20, None), Pinger.Version("1.8", 47), JString("A Minecraft Server"), None);
  }

  /** `test_status`: the server sends the 107-byte document `text`, which the JSON parser reads
      as the document above, then echoes the ping. `status` returns the validated document with
      the first attempt's latency, after flushing the handshake, the status request 01 00 and
      the ping request. The document's own bytes are left abstract, as is the JSON parser. */
  lemma StatusVector(randoms: nat -> Token, latencies: nat -> real, parseJson: string -> Option<Value>, text: string)
    requires |Utf8.Encode(text)| == 0x6B && parseJson(text) == Some(StatusDocument)
    ensures Status(TestClient(randoms, latencies), None, parseJson, Connection([], [0x6D, 0x00, 0x6B] + Utf8.Encode(text) + Echo))
         == Retried(Success(StatusResponse.(latency := Some(latencies(1)))),
                    Session(Connection(HandshakeBytes + [0x01, 0x00] + Echo, []), 1), 1)
  {
    TestPingerFixed(randoms, latencies, 1);
    TestHandshake();
    TestEcho();
    StatusFrame(text);
    DocumentParsed();
    AnsweredFromStart(TestClient(randoms, latencies), parseJson, HandshakeBytes, Echo, text,
                      [0x6D, 0x00, 0x6B] + Utf8.Encode(text), StatusDocument, StatusResponse);
  }

  /** A fresh connection whose server sends the status reply `reply`, then the echo. */
  lemma AnsweredFromStart(cl: Client, parseJson: string -> Option<Value>, hs: seq<byte>, frame: seq<byte>, text: string,
                          reply: seq<byte>, raw: Value, status: Pinger.PingResponse)
    requires Pinger.Handshake(PingerFor(cl, 1), Fresh) == Success(Connection(hs, []))
    requires Pinger.PingFrame(PingerFor(cl, 1).token) == Success(frame)
    requires UtfFrame(text).Success? && BufferFrame(VarintFrame(0).value + UtfFrame(text).value) == Success(reply)
    requires parseJson(text) == Some(raw) && Pinger.ParsePingResponse(raw) == Success(status)
    ensures Status(cl, None, parseJson, Connection([], reply + frame))
         == Retried(Success(status.(latency := Some(cl.latencies(1)))), Session(Connection(hs + [0x01, 0x00] + frame, []), 1), 1)
  {
    assert frame == frame + [];
    StatusAnswered(cl, parseJson, hs, frame, text, reply, raw, status, [], frame, []);
    assert [] + hs + Pinger.StatusRequest + frame == hs + [0x01, 0x00] + frame;
  }

  // ---------------------------------------------------------------- retries

  /** `test_ping_retry`: every attempt fails (here, the server sends nothing), so `ping` makes
      all three attempts on its one connection and fails. */
  lemma PingRetryVector(randoms: nat -> Token, latencies: nat -> real)
    ensures Ping(TestClient(randoms, latencies), None, Fresh).calls == 3
    ensures Ping(TestClient(randoms, latencies), None, Fresh).result.Failure?
  {
    PingFromSilent(3, TestClient(randoms, latencies), Session(Fresh, 0), None);
  }

  /** `test_status_retry`: likewise for `status`. */
  lemma StatusRetryVector(randoms: nat -> Token, latencies: nat -> real, parseJson: string -> Option<Value>)
    ensures Status(TestClient(randoms, latencies), None, parseJson, Fresh).calls == 3
    ensures Status(TestClient(randoms, latencies), None, parseJson, Fresh).result.Failure?
  {
    StatusFromSilent(3, TestClient(randoms, latencies), parseJson, Session(Fresh, 0), None);
  }

  /** `test_query_retry`: likewise for `query`, whose every attempt is a new exchange. */
  lemma QueryRetryVector()
    ensures Query(MinecraftServer("localhost", 25565, DefaultTimeout), NxDomain, k => Replies([], [])).Success?
    ensures Query(MinecraftServer("localhost", 25565, DefaultTimeout), NxDomain, k => Replies([], [])).value.1.calls == 3
    ensures Query(MinecraftServer("localhost", 25565, DefaultTimeout), NxDomain, k => Replies([], [])).value.1.result.Failure?
  {
    QuerySilent(MinecraftServer("localhost", 25565, DefaultTimeout), NxDomain, k => Replies([], []));
  }

  // ---------------------------------------------------------------- query

  /** The key/value pairs of `test_query`'s full-stat reply, in the order they are sent. */
  const SamplePairs: seq<(string, string)> := [
    ("hostname", "A Minecraft Server"), ("gametype", "SMP"), ("game_id", "MINECRAFT"), ("version", "1.8"),
    ("plugins", ""), ("map", "world"), ("numplayers", "3"), ("maxplayers", "20"), ("hostport", "25565"),
    ("hostip", "192.168.56.1")]

  /** 00 00 00 00 00: the reply's type byte and session id. */
  const StatHeader: seq<byte> := [0x00, 0x00, 0x00, 0x00, 0x00]

  const Padding: seq<byte> := [0x00, 0x00, 0x00, 0x00, 0x00, 0x00, 0x00, 0x00, 0x00, 0x00, 0x00]

  /** 01 "player_" 00 00: the section marker between the pairs and the player names, after the
      skipped byte 01. */
  const PlayerMarker: seq<byte> := [0x70, 0x6C, 0x61, 0x79, 0x65, 0x72, 0x5F, 0x00, 0x00]

  lemma SampleFields()
    ensures Querier.PairsOk(SamplePairs) && Querier.NamesOk(QuerierVectors.SampleNames)
  {
    KeyFields();
    ValueFields();
    NameFields();
  }

  lemma KeyFields()
    ensures forall i :: 0 <= i < |SamplePairs| ==> |SamplePairs[i].0| > 0 && Querier.Field(SamplePairs[i].0)
  {
    assert Querier.Field("hostname");
    assert Querier.Field("gametype");
    assert Querier.Field("game_id");
    assert Querier.Field("version");
    assert Querier.Field("plugins");
    assert Querier.Field("map");
    assert Querier.Field("numplayers");
    assert Querier.Field("maxplayers");
    assert Querier.Field("hostport");
    assert Querier.Field("hostip");
  }

  lemma ValueFields()
    ensures forall i :: 0 <= i < |SamplePairs| ==> Querier.Field(SamplePairs[i].1)
  {
    assert Querier.Field("A Minecraft Server");
    assert Querier.Field("SMP");
    assert Querier.Field("MINECRAFT");
    assert Querier.Field("1.8");
    assert Querier.Field("");
    assert Querier.Field("world");
    assert Querier.Field("3");
    assert Querier.Field("20");
    assert Querier.Field("25565");
    assert Querier.Field("192.168.56.1");
  }

  lemma NameFields()
    ensures Querier.NamesOk(QuerierVectors.SampleNames)
  {
    assert Querier.Field("Dinnerbone");
    assert Querier.Field("Djinnibone");
    assert Querier.Field("Steve");
  }

  lemma SampleCollected()
    ensures Querier.Collect(map[], SamplePairs) == QuerierVectors.SampleRaw
  {
  }

  /** The full-stat reply of `test_query`: header, padding, the pairs, 00 01, the marker, the
      three player names and the closing 00, every string framed as ASCII ending in 00. */
  function StatReply(): seq<byte>
  {
    SampleFields();
    StatHeader + Querier.StatBody(Padding, SamplePairs, 0x01, PlayerMarker, QuerierVectors.SampleNames, [])
  }

  /** The challenge 570350778 as a signed 32-bit integer: 21 FE DC BA. */
  lemma ChallengePacked()
    ensures Pack(Int, 570350778) == Success([0x21, 0xFE, 0xDC, 0xBA])
  {
    Pow256Four();
    assert EncodeBE(0x21FE, 2) == [0x21, 0xFE] by { assert EncodeBE(0x21, 1) == [0x21]; }
    assert EncodeBE(0x21FEDC, 3) == [0x21, 0xFE, 0xDC];
    assert EncodeBE(570350778, 4) == [0x21, 0xFE, 0xDC, 0xBA];
  }

  /** FE FD 00, session id 0, challenge 21 FE DC BA, then four zero bytes. */
  const FullStatRequest: seq<byte> := [0xFE, 0xFD, 0x00, 0x00, 0x00, 0x00, 0x00, 0x21, 0xFE, 0xDC, 0xBA, 0x00, 0x00, 0x00, 0x00]

  lemma FullStatRequestVector()
    ensures Querier.QueryRequest(Querier.ServerQuerier(570350778)) == Success(FullStatRequest)
  {
    ChallengePacked();
    Querier.ZeroWordPacked();
    FullStatConcat();
  }

  lemma FullStatConcat()
    ensures Querier.Magic + [0x00] + Querier.ZeroWord + [0x21, 0xFE, 0xDC, 0xBA] + Querier.ZeroWord == FullStatRequest
  {
  }

  /** What `test_query` reads from that reply. */
  const SampleResponse: Querier.QueryResponse :=
    Querier.QueryResponse(QuerierVectors.SampleRaw, "A Minecraft Server", "world",
                          Querier.QueryPlayers(3, 20, QuerierVectors.SampleNames), Querier.Software("1.8", "vanilla", []))

  /** What the server of `test_query` sends to every attempt: the challenge 570350778, then the
      full-stat reply. */
  function SampleReplies(k: nat): Replies
  {
    QuerierVectors.TokenDigits();
    Replies(QuerierVectors.ReplyHeader + AsciiFrame(Text.FormatInt(570350778)).value, StatReply())
  }

  /** One exchange of `test_query`: the challenge 570350778 is answered, the request carrying
      it is sent, and the reply's ten fields and three players are read. */
  lemma QueryExchangeVector()
    ensures QueryExchange(SampleReplies(1)).0 == Success(SampleResponse)
    ensures QueryExchange(SampleReplies(1)).1 == QuerierVectors.ChallengeRequest + FullStatRequest
  {
    SampleExchange();
    QuerierVectors.ResponseVector();
    QuerierVectors.ChallengeRequestVector();
  }

  lemma SampleExchange()
    ensures QueryExchange(SampleReplies(1))
         == (Querier.MakeResponse(QuerierVectors.SampleRaw, QuerierVectors.SampleNames), ChallengeOpening() + FullStatRequest)
  {
    FullStatRequestVector();
    SampleCollected();
    assert Querier.PairsOk(SamplePairs) && Querier.NamesOk(QuerierVectors.SampleNames) by { SampleFields(); }
    assert AsciiFrame(Text.FormatInt(570350778)) == Success(QuerierVectors.TokenText) by { QuerierVectors.TokenDigits(); }
    assert Int.Fits(570350778) by { Pow256Four(); }
    QueryExchangeAnswered(570350778, QuerierVectors.ReplyHeader, StatHeader, Padding, SamplePairs, 0x01, PlayerMarker,
                          QuerierVectors.SampleNames, []);
  }

  /** `test_query`: with no A record for "localhost" the query goes to the host itself; the
      first attempt succeeds, flushing the challenge request and the full-stat request. */
  lemma QueryVector()
    ensures Query(MinecraftServer("localhost", 25565, DefaultTimeout), NxDomain, SampleReplies)
         == Success(("localhost", Retried(Success(SampleResponse), 1, 1)))
  {
    QueryExchangeVector();
    FirstQueryAnswered(MinecraftServer("localhost", 25565, DefaultTimeout), SampleReplies);
  }

  /** A query whose first exchange succeeds makes no other. */
  lemma FirstQueryAnswered(server: MinecraftServer, replies: nat -> Replies)
    ensures QueryExchange(replies(1)).0.Success? ==>
      Query(server, NxDomain, replies) == Success((server.host, Retried(QueryExchange(replies(1)).0, 1, 1)))
  {
    var first := QueryExchange(replies(1)).0;
    if first.Success? {
      var attempts := QueryAttempts(replies);
      assert attempts == Retried(first, 1, 1);
      assert QueryAddress(server.host, NxDomain) == Success(server.host);
    }
  }
}
