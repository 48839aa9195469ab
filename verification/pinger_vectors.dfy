/** Concrete packets of the Server List Ping, matching the byte strings in
    mcstatus/tests/test_pinger.py. */
module PingerVectors {
  import opened Wrappers
  import opened Bytes
  import Utf8
  import opened Json
  import opened Protocol
  import opened Pinger

  const LocalhostBytes: seq<byte> := [0x6C, 0x6F, 0x63, 0x61, 0x6C, 0x68, 0x6F, 0x73, 0x74]

  lemma LocalhostUtf()
    ensures UtfFrameAsWritten("localhost") == Success([0x09] + LocalhostBytes)
  {
    LocalhostEncoded();
    SmallVarint(9);
  }

  lemma LocalhostEncoded()
    ensures Utf8.Encode("localhost") == LocalhostBytes
  {
    assert Utf8.IsAscii("localhost") by {
      assert forall i :: 0 <= i < 9 ==> "localhost"[i] as int < 0x80;
    }
    Utf8.EncodeAscii("localhost");
    var e := Utf8.Encode("localhost");
    assert e == LocalhostBytes by {
      assert forall i :: 0 <= i < 9 ==> e[i] == LocalhostBytes[i];
    }
  }

  /** The handshake packet to "localhost", port 25565, for a protocol version below 128, which
      is one varint byte. */
  function LocalhostBody(version: byte): seq<byte>
  {
    [0x00] + ([version] + (([0x09] + LocalhostBytes) + ([0x63, 0xDD] + [0x01])))
  }

  /** Protocol 44, host "localhost", port 25565: 0F 00 2C 09 "localhost" 63 DD 01. */
  lemma HandshakeVector()
    ensures Handshake(ServerPinger("localhost", 25565, 44, 0), Fresh)
         == Success(Connection([0x0F, 0x00, 0x2C, 0x09, 0x6C, 0x6F, 0x63, 0x61, 0x6C, 0x68, 0x6F, 0x73, 0x74, 0x63, 0xDD, 0x01], []))
  {
    LocalhostHandshake(44, 0);
    HandshakeConcat();
  }

  const HandshakeBody: seq<byte> := [0x00, 0x2C, 0x09, 0x6C, 0x6F, 0x63, 0x61, 0x6C, 0x68, 0x6F, 0x73, 0x74, 0x63, 0xDD, 0x01]

  lemma HandshakeConcat()
    ensures LocalhostBody(44) == HandshakeBody
    ensures [0x0F] + HandshakeBody
         == [0x0F, 0x00, 0x2C, 0x09, 0x6C, 0x6F, 0x63, 0x61, 0x6C, 0x68, 0x6F, 0x73, 0x74, 0x63, 0xDD, 0x01]
  {
  }

  /** To "localhost", port 25565, with a one-byte protocol version: the frame 0F, then the
      packet, whatever the token. */
  lemma LocalhostHandshake(version: byte, token: int)
    requires version < 0x80
    ensures HandshakePacket(ServerPinger("localhost", 25565, version as int, token)) == Success(LocalhostBody(version))
    ensures Handshake(ServerPinger("localhost", 25565, version as int, token), Fresh)
         == Success(Connection([0x0F] + LocalhostBody(version), []))
  {
    var p := ServerPinger("localhost", 25565, version as int, token);
    LocalhostUtf();
    SmallVarint(0);
    SmallVarint(1);
    SmallVarint(version as int);
    PortBytes();
    HandshakePacketShape(p);
    ShortHandshake(p, LocalhostBody(version));
  }

  lemma ShortHandshake(p: ServerPinger, body: seq<byte>)
    requires HandshakePacket(p) == Success(body) && |body| < 0x80
    ensures Handshake(p, Fresh) == Success(Connection([|body|] + body, []))
  {
    SmallBufferFrame(body);
    var frame := [|body|] + body;
    assert Write(Fresh, frame) == Connection(frame, []) by { assert [] + frame == frame; }
  }

  lemma PortBytes()
    ensures Pack(UShort, 25565) == Success([0x63, 0xDD])
  {
    assert Pow256(2) == 0x1_0000;
    assert EncodeBE(25565, 2) == [0x63, 0xDD] by { assert EncodeBE(0x63, 1) == [0x63]; }
  }

  /** Token 14515484 (0xDD7D1C): 09 01 00 00 00 00 00 DD 7D 1C. */
  lemma PingVector()
    ensures PingFrame(14515484) == Success([0x09, 0x01] + [0x00, 0x00, 0x00, 0x00, 0x00, 0xDD, 0x7D, 0x1C])
  {
    TokenBytes();
    PingFrameBytes(14515484, [0x00, 0x00, 0x00, 0x00, 0x00, 0xDD, 0x7D, 0x1C]);
  }

  lemma TokenBytes()
    ensures Pack(Long, 14515484) == Success([0x00, 0x00, 0x00, 0x00, 0x00, 0xDD, 0x7D, 0x1C])
  {
    LongRange();
    Pow256Four();
    assert Pow256(8) == 0x1_0000_0000_0000_0000 by { assert Pow256(6) == 0x1_0000_0000_0000; }
    assert EncodeBE(0, 5) == [0x00, 0x00, 0x00, 0x00, 0x00] by {
      assert EncodeBE(0, 2) == [0x00, 0x00];
      assert EncodeBE(0, 3) == [0x00, 0x00, 0x00];
      assert EncodeBE(0, 4) == [0x00, 0x00, 0x00, 0x00];
    }
    assert EncodeBE(0xDD, 6) == [0x00, 0x00, 0x00, 0x00, 0x00, 0xDD];
    assert EncodeBE(0xDD7D, 7) == [0x00, 0x00, 0x00, 0x00, 0x00, 0xDD, 0x7D];
    assert EncodeBE(14515484, 8) == [0x00, 0x00, 0x00, 0x00, 0x00, 0xDD, 0x7D, 0x1C];
  }

  /** The reply 01 05 is packet 5, not a status reply. */
  lemma StatusWrongIdVector(parseJson: string -> Option<Value>)
    ensures ReadStatus(Connection([], [0x01, 0x05]), parseJson).result == Failure(InvalidStatusPacket)
  {
    SmallVarint(5);
    StatusReplyWrongId(5, [], parseJson);
    SmallBufferFrame([0x05]);
    assert [0x05] + [] == [0x05];
    ReadStatusRoundTrip(Connection([], [0x01, 0x05]), [0x05], [], parseJson);
  }

  /** The reply 03 00 01 7B carries the text "{", which is not a JSON document. */
  lemma StatusInvalidJsonVector(parseJson: string -> Option<Value>)
    requires parseJson("{") == None
    ensures ReadStatus(Connection([], [0x03, 0x00, 0x01, 0x7B]), parseJson).result == Failure(InvalidJson)
  {
    SmallBufferFrame([0x00, 0x01, 0x7B]);
    ReadStatusRoundTrip(Connection([], [0x03, 0x00, 0x01, 0x7B]), [0x00, 0x01, 0x7B], [], parseJson);
    InvalidJsonReply(parseJson);
  }

  /** The packet 00 01 7B: id 0, then the one-byte text "{". */
  lemma InvalidJsonReply(parseJson: string -> Option<Value>)
    requires parseJson("{") == None
    ensures StatusReply(Connection([], [0x00, 0x01, 0x7B]), parseJson) == Failure(InvalidJson)
  {
    BraceId();
    BraceText();
  }

  lemma BraceId()
    ensures ReadVarint(Connection([], [0x00, 0x01, 0x7B])) == Step(Success(0), Connection([], [0x01, 0x7B]))
  {
    SmallVarint(0);
    VarintRoundTrip(0, [], [0x01, 0x7B]);
  }

  lemma BraceText()
    ensures ReadUtf(Connection([], [0x01, 0x7B])).result == Success("{")
  {
    BraceFrame();
    UtfRoundTrip("{", [], []);
  }

  lemma BraceFrame()
    ensures UtfFrame("{") == Success([0x01, 0x7B])
  {
    assert Utf8.Encode("{") == [0x7B] by {
      assert Utf8.Encode("{") == Utf8.EncodeChar('{') + Utf8.Encode("");
    }
    SmallVarint(1);
    assert |Utf8.Encode("{")| == 1;
    assert UtfFrame("{").Success?;
    var bs: seq<byte> := [0x01] + [0x7B];
    assert UtfFrame("{").value == bs;
    assert bs == [0x01, 0x7B];
  }

  /** The reply 01 1F is packet 31, not a pong. */
  lemma PingWrongIdVector(latency: real)
    ensures TestPing(ServerPinger("localhost", 25565, 44, 14515484), Connection([], [0x01, 0x1F]), latency).result
         == Failure(InvalidPingPacket)
  {
    LongRange();
    SmallVarint(0x1F);
    SmallBufferFrame([0x1F]);
    assert [0x1F] + [] == [0x1F];
    assert BufferFrame([0x1F]).value + [] == [0x01, 0x1F];
    TestPingReads(ServerPinger("localhost", 25565, 44, 14515484), [], [0x1F], [], latency);
    PingReplyWrongId(0x1F, [], 14515484, latency);
  }

  /** Echoing token 14515484 to a pinger whose token is 12345 is a mangled ping. */
  lemma PingWrongTokenVector(latency: real)
    ensures TestPing(ServerPinger("localhost", 25565, 44, 12345), Connection([], PingFrame(14515484).value), latency).result
         == Failure(MangledPing(12345, 14515484))
  {
    LongRange();
    assert PingFrame(14515484).value + [] == PingFrame(14515484).value;
    PingOtherEcho(ServerPinger("localhost", 25565, 44, 12345), 14515484, [], [], latency);
  }
}
