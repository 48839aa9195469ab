/** Concrete frames of the connection codecs, matching the byte strings in
    mcstatus/tests/protocol/test_connection.py. */
module ProtocolVectors {
  import opened Wrappers
  import opened Bytes
  import opened Protocol
  import Utf8

  /** 15 is one byte; 2^31 - 1 takes all five; -1 is sent as its 32-bit pattern; 2^35 is
      refused before anything is written. */
  lemma VarintFrames()
    ensures VarintFrame(15) == Success([0x0F])
    ensures VarintFrame(0x7FFF_FFFF) == Success([0xFF, 0xFF, 0xFF, 0xFF, 0x07])
    ensures VarintFrame(-1) == Success([0xFF, 0xFF, 0xFF, 0xFF, 0x0F])
    ensures VarintFrame(0x8_0000_0000) == Failure(VarintOutOfRange)
  {
    Pow256Four();
    assert VarintFrame(15) == Success([0x0F]) by {
      assert ToUnsigned(15, 4) == 15;
      assert VarintBytes(15, 5) == [0x0F];
    }
    assert VarintFrame(0x7FFF_FFFF) == Success([0xFF, 0xFF, 0xFF, 0xFF, 0x07]) by {
      assert ToUnsigned(0x7FFF_FFFF, 4) == 0x7FFF_FFFF;
      MaxBytes();
    }
    assert VarintFrame(-1) == Success([0xFF, 0xFF, 0xFF, 0xFF, 0x0F]) by {
      assert ToUnsigned(-1, 4) == 0xFFFF_FFFF;
      MinusOneBytes();
    }
  }

  /** A buffer whose length is -1 (FF FF FF FF 0F) keeps, on the in-memory queue, all but
      the last of the bytes that follow, as the slice `[:-1]` does. */
  lemma NegativeBufferLength(sent: seq<byte>, body: seq<byte>)
    requires |body| > 0
    ensures ReadBuffer(Connection(sent, [0xFF, 0xFF, 0xFF, 0xFF, 0x0F] + body))
         == Step(Success(Connection([], body[..|body| - 1])), Connection(sent, body[|body| - 1..]))
  {
    VarintFrames();
    VarintRoundTrip(-1, sent, body);
  }

  lemma MaxBytes()
    ensures VarintBytes(0x7FFF_FFFF, 5) == [0xFF, 0xFF, 0xFF, 0xFF, 0x07]
  {
    assert VarintBytes(0x7, 1) == [0x07];
    assert VarintBytes(0x3FF, 2) == [0xFF, 0x07];
    assert VarintBytes(0x1_FFFF, 3) == [0xFF, 0xFF, 0x07];
    assert VarintBytes(0xFF_FFFF, 4) == [0xFF, 0xFF, 0xFF, 0x07];
    assert Scale[5] == 0x8_0000_0000 && Scale[4] == 0x1000_0000;
    assert 0x7FFF_FFFF / 0x80 == 0xFF_FFFF && 0x7FFF_FFFF % 0x80 == 0x7F;
  }

  lemma MinusOneBytes()
    ensures VarintBytes(0xFFFF_FFFF, 5) == [0xFF, 0xFF, 0xFF, 0xFF, 0x0F]
  {
    assert VarintBytes(0xF, 1) == [0x0F];
    assert VarintBytes(0x7FF, 2) == [0xFF, 0x0F];
    assert VarintBytes(0x3_FFFF, 3) == [0xFF, 0xFF, 0x0F];
    assert VarintBytes(0x1FF_FFFF, 4) == [0xFF, 0xFF, 0xFF, 0x0F];
    assert Scale[5] == 0x8_0000_0000 && Scale[4] == 0x1000_0000;
    assert 0xFFFF_FFFF / 0x80 == 0x1FF_FFFF && 0xFFFF_FFFF % 0x80 == 0x7F;
  }

  lemma AllOnesBytes()
    ensures VarintBytes(0x7_FFFF_FFFF, 5) == [0xFF, 0xFF, 0xFF, 0xFF, 0x7F]
  {
    assert VarintBytes(0x7F, 1) == [0x7F];
    assert VarintBytes(0x3FFF, 2) == [0xFF, 0x7F];
    assert VarintBytes(0x1F_FFFF, 3) == [0xFF, 0xFF, 0x7F];
    assert VarintBytes(0xFFF_FFFF, 4) == [0xFF, 0xFF, 0xFF, 0x7F];
    assert Scale[5] == 0x8_0000_0000 && Scale[4] == 0x1000_0000;
    assert 0x7_FFFF_FFFF / 0x80 == 0xFFF_FFFF && 0x7_FFFF_FFFF % 0x80 == 0x7F;
  }

  /** FF FF FF FF 7F is read as -1: the 35 bits collected are cut to 32 and read as signed. */
  lemma VarintReadTruncates()
    ensures ReadVarint(Connection([], [0xFF, 0xFF, 0xFF, 0xFF, 0x7F])).result == Success(-1)
  {
    AllOnesBytes();
    assert [0xFF, 0xFF, 0xFF, 0xFF, 0x7F] == VarintBytes(0x7_FFFF_FFFF, 5) + [];
    ReadVarintBytes(0x7_FFFF_FFFF, 0, 0, 0x7_FFFF_FFFF, [], []);
    Pow256Four();
    assert 0x7_FFFF_FFFF % 0x1_0000_0000 == 0xFFFF_FFFF;
  }

  /** FF FF FF FF 80 sets the continuation bit on all five bytes and is rejected. */
  lemma VarintReadTooBig()
    ensures ReadVarint(Connection([], [0xFF, 0xFF, 0xFF, 0xFF, 0x80])).result == Failure(VarintTooBig)
  {
    ReadVarintTooLong(Connection([], [0xFF, 0xFF, 0xFF, 0xFF, 0x80]), 0, 0);
  }

  /** The `struct` vectors of the 16-bit formats: 80 00 is -32768 signed and 32768 unsigned. */
  lemma ShortFrames()
    ensures Pack(Short, -32768) == Success([0x80, 0x00])
    ensures Pack(Short, 32767) == Success([0x7F, 0xFF])
    ensures Pack(UShort, 32768) == Success([0x80, 0x00])
    ensures Pack(Short, 32768) == Failure(StructError)
  {
    SixteenBits();
    assert Unpack(Short, [0x80, 0x00]) == Success(-32768);
    PackUnpack(Short, [0x80, 0x00]);
    assert Unpack(Short, [0x7F, 0xFF]) == Success(32767);
    PackUnpack(Short, [0x7F, 0xFF]);
    assert Unpack(UShort, [0x80, 0x00]) == Success(32768);
    PackUnpack(UShort, [0x80, 0x00]);
  }

  lemma SixteenBits()
    ensures Pow256(2) == 0x1_0000 && Half(2) == 0x8000
  {
  }

  /** 80 00 00 00 is -2^31 as `i` and 2^31 as `I`. */
  lemma IntFrames()
    ensures Pack(Int, -0x8000_0000) == Success([0x80, 0x00, 0x00, 0x00])
    ensures Pack(UInt, 0x8000_0000) == Success([0x80, 0x00, 0x00, 0x00])
  {
    Pow256Four();
    assert EncodeBE(0x8000_0000, 4) == [0x80, 0x00, 0x00, 0x00] by {
      assert EncodeBE(0x80, 1) == [0x80];
      assert EncodeBE(0x8000, 2) == [0x80, 0x00];
      assert EncodeBE(0x80_0000, 3) == [0x80, 0x00, 0x00];
    }
  }

  /** 2^63 - 1 as `q` is 7F followed by seven FF. */
  lemma LongFrame()
    ensures Pack(Long, 0x7FFF_FFFF_FFFF_FFFF) == Success([0x7F, 0xFF, 0xFF, 0xFF, 0xFF, 0xFF, 0xFF, 0xFF])
  {
    Pow256Four();
    assert Pow256(8) == 0x1_0000_0000_0000_0000 by { Pow256Split(4, 4); }
    assert Half(8) == 0x8000_0000_0000_0000 by { Pow256Split(1, 7); }
    assert EncodeBE(0x7FFF_FFFF, 4) == [0x7F, 0xFF, 0xFF, 0xFF] by {
      assert EncodeBE(0x7F, 1) == [0x7F];
      assert EncodeBE(0x7FFF, 2) == [0x7F, 0xFF];
      assert EncodeBE(0x7F_FFFF, 3) == [0x7F, 0xFF, 0xFF];
    }
    assert EncodeBE(0x7FFF_FFFF_FFFF_FFFF, 8) == [0x7F, 0xFF, 0xFF, 0xFF, 0xFF, 0xFF, 0xFF, 0xFF] by {
      assert EncodeBE(0x7F_FFFF_FFFF, 5) == [0x7F, 0xFF, 0xFF, 0xFF, 0xFF];
      assert EncodeBE(0x7FFF_FFFF_FFFF, 6) == [0x7F, 0xFF, 0xFF, 0xFF, 0xFF, 0xFF];
      assert EncodeBE(0x7F_FFFF_FFFF_FFFF, 7) == [0x7F, 0xFF, 0xFF, 0xFF, 0xFF, 0xFF, 0xFF];
    }
  }

  lemma {:induction false} Pow256Split(a: nat, b: nat)
    ensures Pow256(a + b) == Pow256(a) * Pow256(b)
  {
    if a > 0 {
      Pow256Split(a - 1, b);
    }
  }

  /** The empty string is framed as a lone 00 both by `write_utf` and by `write_ascii`, and a
      two-byte buffer is prefixed with 02. */
  lemma EmptyAndBufferFrames()
    ensures UtfFrame("") == Success([0x00])
    ensures AsciiFrame("") == Success([0x00])
    ensures BufferFrame([0x7F, 0xAA]) == Success([0x02, 0x7F, 0xAA])
  {
    Pow256Four();
    assert VarintBytes(0, 5) == [0x00] && VarintBytes(2, 5) == [0x02];
    assert VarintFrame(0) == Success([0x00]);
    assert VarintFrame(2) == Success([0x02]);
    assert Utf8.Encode("") == [];
    assert Utf8.Latin1Encode("") == Success([]);
    var zero: seq<byte> := [0x00];
    assert zero + [] == zero && [] + zero == zero;
    assert [0x02] + [0x7F, 0xAA] == [0x02, 0x7F, 0xAA];
  }

  /** Reading 02 7F AA gives a buffer holding 7F AA and leaves nothing queued. */
  lemma ReadBufferVector()
    ensures ReadBuffer(Connection([], [0x02, 0x7F, 0xAA])) == Step(Success(Connection([], [0x7F, 0xAA])), Fresh)
  {
    EmptyAndBufferFrames();
    BufferRoundTrip([0x7F, 0xAA], [], []);
    assert [0x02, 0x7F, 0xAA] + [] == [0x02, 0x7F, 0xAA];
  }
}
