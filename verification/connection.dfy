/** The in-memory `Connection` of mcstatus/protocol/connection.py: an outbound queue `sent`
    and an inbound queue `received`, with the Minecraft codecs layered on them.

    Every codec is given twice: a frame function (the bytes a value encodes to, or the error
    `struct`/`write_varint` raise before writing anything) and a reader that consumes from the
    front of `received`. A read returns a `Step`: its outcome together with the connection as
    the Python object is left afterwards, also when the read raised, because the callers go on
    using the same connection after a failed attempt. */
module Protocol {
  import opened Wrappers
  import opened Bytes
  import Utf8
  import Text

  datatype Connection = Connection(sent: seq<byte>, received: seq<byte>)

  /** `Connection()`: both queues empty. */
  const Fresh := Connection([], [])

  /** The outcome of a read and the connection it leaves behind. */
  datatype Step<T> = Step(result: Outcome<T>, conn: Connection)

  // ---------------------------------------------------------------- raw queue operations

  /** `read(length)`: the slice `received[:length]`, which is removed. A short queue gives a
      short result, never an error; a negative length keeps Python's slice meaning (all but
      the last `-length` bytes). */
  function Read(c: Connection, n: int): (r: (seq<byte>, Connection))
    ensures r.0 + r.1.received == c.received
    ensures r.1.sent == c.sent
    ensures n >= 0 ==> |r.0| == if n <= |c.received| then n else |c.received|
    ensures n < 0 ==> |r.0| == if |c.received| + n >= 0 then |c.received| + n else 0
  {
    var k := if n >= 0 then (if n <= |c.received| then n else |c.received|)
             else (if |c.received| + n >= 0 then |c.received| + n else 0);
    (c.received[..k], c.(received := c.received[k..]))
  }

  /** `write(data)` for bytes: `data` goes out after everything already written. */
  function Write(c: Connection, data: seq<byte>): (r: Connection)
    ensures r.received == c.received
    ensures |r.sent| == |c.sent| + |data| && r.sent[..|c.sent|] == c.sent && r.sent[|c.sent|..] == data
  {
    c.(sent := c.sent + data)
  }

  /** `write(data)` for a `str`: its UTF-8 bytes. */
  function WriteText(c: Connection, s: string): Connection
  {
    Write(c, Utf8.Encode(s))
  }

  /** `write(other)` for a `Connection`: `other` is flushed and its bytes appended. */
  function WriteConnection(c: Connection, other: Connection): (r: (Connection, Connection))
    ensures r.0 == Write(c, other.sent)
    ensures r.1.sent == [] && r.1.received == other.received
  {
    var (data, other') := Flush(other);
    (Write(c, data), other')
  }

  /** `receive(data)`: `data` is queued behind what is already there, which is read first. */
  function Receive(c: Connection, data: seq<byte>): (r: Connection)
    ensures r.sent == c.sent
    ensures |r.received| == |c.received| + |data| && r.received[..|c.received|] == c.received && r.received[|c.received|..] == data
  {
    c.(received := c.received + data)
  }

  /** What was queued before `receive` is read first, and what it queued is left behind. */
  lemma ReceiveReadsFirst(c: Connection, data: seq<byte>)
    ensures Remaining(Receive(c, data)) == Remaining(c) + |data|
    ensures Read(Receive(c, data), |c.received|) == (c.received, Connection(c.sent, data))
  {
  }

  /** `remaining()`: how much a read can still take; reading that much drains the queue. */
  function Remaining(c: Connection): (r: nat)
    ensures Read(c, r) == (c.received, c.(received := []))
  {
    assert c.received[..|c.received|] == c.received;
    |c.received|
  }

  /** `flush()`: the bytes written so far; the outbound queue is emptied. */
  function Flush(c: Connection): (r: (seq<byte>, Connection))
    ensures r.1.sent == [] && Write(r.1, r.0) == c
  {
    (c.sent, c.(sent := []))
  }

  /** Writes accumulate in order and `flush` hands back exactly them, leaving nothing
      queued and the inbound side untouched. */
  lemma WriteFlush(c: Connection, a: seq<byte>, b: seq<byte>)
    ensures Flush(Write(Write(c, a), b)) == (c.sent + a + b, Connection([], c.received))
  {
  }

  /** Writing a nested connection empties it and appends what it held. */
  lemma WriteConnectionFlushes(c: Connection, other: Connection)
    ensures WriteConnection(c, other).0.sent == c.sent + other.sent
    ensures WriteConnection(c, other).1 == Connection([], other.received)
  {
  }

  /** `receive` appends and `remaining` counts what is queued. */
  lemma ReceiveRemaining(c: Connection, a: seq<byte>, b: seq<byte>)
    ensures Receive(Receive(c, a), b).received == c.received + a + b
    ensures Remaining(Receive(Receive(c, a), b)) == Remaining(c) + |a| + |b|
  {
  }

  /** Consecutive reads take consecutive slices of the inbound queue. */
  lemma {:induction false} ReadRead(c: Connection, m: nat, n: nat)
    requires m + n <= |c.received|
    ensures Read(c, m).0 + Read(Read(c, m).1, n).0 == c.received[..m + n]
    ensures Read(Read(c, m).1, n).1 == Read(c, m + n).1
  {
    assert c.received[..m + n] == c.received[..m] + c.received[m..][..n];
    assert c.received[m..][n..] == c.received[m + n..];
  }

  // ---------------------------------------------------------------- varint

  const VarintMin: int := -0x8000_0000
  const VarintMax: int := 0x7FFF_FFFF

  /** 128 raised to the index: the weight of the index-th seven-bit group. */
  const Scale: seq<nat> := [1, 0x80, 0x4000, 0x20_0000, 0x1000_0000, 0x8_0000_0000]

  /** The bytes `write_varint` emits for the unsigned pattern `u` with `iters` loop rounds
      left: seven bits per byte, least significant first, 0x80 on every byte but the last. */
  function VarintBytes(u: nat, iters: nat): (r: seq<byte>)
    requires 1 <= iters <= 5 && u < Scale[iters]
    ensures 1 <= |r| <= iters
    ensures r[|r| - 1] < 0x80
    ensures forall i :: 0 <= i < |r| - 1 ==> r[i] >= 0x80
    ensures |r| == 1 <==> u < 0x80
  {
    if u < 0x80 then [u]
    else
      var rest := VarintBytes(u / 0x80, iters - 1);
      [u % 0x80 + 0x80] + rest
  }

  /** The varint encoding of `v`, or the ValueError `write_varint` raises before emitting
      anything when `v` is outside the signed 32-bit range. */
  function VarintFrame(v: int): (r: Outcome<seq<byte>>)
    ensures r.Success? <==> VarintMin <= v <= VarintMax
    ensures r.Failure? ==> r.error == VarintOutOfRange
    ensures r.Success? ==> 1 <= |r.value| <= 5
    ensures r.Success? ==> r.value[|r.value| - 1] < 0x80
    ensures r.Success? ==> forall i :: 0 <= i < |r.value| - 1 ==> r.value[i] >= 0x80
  {
    if v < VarintMin || VarintMax < v then Failure(VarintOutOfRange)
    else Success(VarintBytes(ToUnsigned(v, 4), 5))
  }

  /** A value in [0, 127] is sent as the single byte it is. */
  lemma SmallVarint(v: int)
    requires 0 <= v < 0x80
    ensures VarintFrame(v) == Success([v])
  {
    Pow256Four();
    assert ToUnsigned(v, 4) == v;
  }

  /** `write_varint(v)`. */
  function WriteVarint(c: Connection, v: int): (r: Outcome<Connection>)
    ensures r.Success? <==> VarintFrame(v).Success?
    ensures r.Success? ==> r.value == Write(c, VarintFrame(v).value)
  {
    var bytes :- VarintFrame(v);
    Success(Write(c, bytes))
  }

  /** The `read_varint` loop from round `i` with the groups read so far summing to `acc`.
      Groups occupy disjoint bit positions, so Python's `|=` is the addition used here. The
      final value is truncated to 32 bits and read as signed, as `c_int32` does. */
  function ReadVarintFrom(c: Connection, i: nat, acc: nat): (r: Step<int>)
    requires i <= 5
    ensures r.conn.sent == c.sent
    ensures |r.conn.received| <= |c.received|
    ensures r.result.Success? ==> VarintMin <= r.result.value <= VarintMax
    ensures r.result.Success? ==> |r.conn.received| < |c.received|
    decreases 5 - i
  {
    if i == 5 then Step(Failure(VarintTooBig), c)
    else
      var (part, c') := Read(c, 1);
      if |part| == 0 then Step(Failure(IndexError), c')
      else
        var acc' := Accumulate(acc, part[0], i);
        if part[0] < 0x80 then Step(Success(Signed32(acc')), c')
        else ReadVarintFrom(c', i + 1, acc')
  }

  /** `result |= (part & 0x7F) << 7 * i`: the group of byte `b` added at its weight. */
  function Accumulate(acc: nat, b: byte, i: nat): nat
    requires i < 5
  {
    acc + (b % 0x80) * Scale[i]
  }

  /** `c_int32(x).value`: the low 32 bits of `x` read as a signed integer. */
  function Signed32(x: nat): (r: int)
    ensures VarintMin <= r <= VarintMax
  {
    Pow256Four();
    ToSigned(x % 0x1_0000_0000, 4)
  }

  lemma Pow256Four()
    ensures Pow256(4) == 0x1_0000_0000 && Half(4) == 0x8000_0000
  {
    assert Pow256(2) == 0x1_0000;
  }

  /** `read_varint()`. */
  function ReadVarint(c: Connection): (r: Step<int>)
    ensures r.conn.sent == c.sent
    ensures |r.conn.received| <= |c.received| && |c.received| - |r.conn.received| <= 5
    ensures c.received == c.received[..|c.received| - |r.conn.received|] + r.conn.received
    ensures r.result.Success? ==> VarintMin <= r.result.value <= VarintMax && |r.conn.received| < |c.received|
  {
    ReadVarintFromConsumes(c, 0, 0);
    ReadVarintFrom(c, 0, 0)
  }

  /** The read loop from round `i` takes bytes off the front of the queue, at most one per
      round left. */
  lemma {:induction false} ReadVarintFromConsumes(c: Connection, i: nat, acc: nat)
    requires i <= 5
    ensures var r := ReadVarintFrom(c, i, acc);
      c.received == c.received[..|c.received| - |r.conn.received|] + r.conn.received &&
      |c.received| - |r.conn.received| <= 5 - i
    decreases 5 - i
  {
    if i < 5 {
      var (part, c') := Read(c, 1);
      if |part| > 0 && part[0] >= 0x80 {
        ReadVarintFromConsumes(c', i + 1, Accumulate(acc, part[0], i));
      }
    }
  }

  lemma GroupSplit(u: nat, s: nat)
    ensures (u % 0x80) * s + (u / 0x80) * (0x80 * s) == u * s
  {
    assert u == (u / 0x80) * 0x80 + u % 0x80;
    calc {
      (u % 0x80) * s + (u / 0x80) * (0x80 * s);
      (u % 0x80) * s + ((u / 0x80) * 0x80) * s;
      (u % 0x80 + (u / 0x80) * 0x80) * s;
    }
  }

  /** One round of the `read_varint` loop on a queue starting with byte `b`. */
  lemma ReadVarintStep(sent: seq<byte>, b: byte, more: seq<byte>, i: nat, acc: nat)
    requires i < 5
    ensures ReadVarintFrom(Connection(sent, [b] + more), i, acc)
         == if b < 0x80 then Step(Success(Signed32(Accumulate(acc, b, i))), Connection(sent, more))
            else ReadVarintFrom(Connection(sent, more), i + 1, Accumulate(acc, b, i))
  {
    var c := Connection(sent, [b] + more);
    assert Read(c, 1) == ([b], Connection(sent, more));
  }

  lemma DivBound(u: nat, s: nat)
    requires u < 0x80 * s
    ensures u / 0x80 < s
  {
  }

  /** The value still to come, `t`, grows by the group just read: regrouping `u` as its low
      seven bits and the rest. */
  lemma Regroup(u: nat, i: nat, acc: nat, t: nat)
    requires i < 4 && t == acc + u * Scale[i]
    ensures t == Accumulate(acc, u % 0x80 + 0x80, i) + (u / 0x80) * Scale[i + 1]
  {
    assert Scale[i + 1] == 0x80 * Scale[i];
    GroupSplit(u, Scale[i]);
  }

  /** A byte with the continuation bit set: `read_varint` adds its group and moves on. */
  lemma ReadVarintContinue(u: nat, i: nat, acc: nat, sent: seq<byte>, rest: seq<byte>)
    requires i < 4 && 0x80 <= u < Scale[5 - i]
    ensures u / 0x80 < Scale[5 - (i + 1)]
    ensures ReadVarintFrom(Connection(sent, VarintBytes(u, 5 - i) + rest), i, acc)
         == ReadVarintFrom(Connection(sent, VarintBytes(u / 0x80, 5 - (i + 1)) + rest), i + 1, Accumulate(acc, u % 0x80 + 0x80, i))
  {
    assert Scale[5 - i] == 0x80 * Scale[5 - i - 1];
    DivBound(u, Scale[5 - i - 1]);
    var tail := VarintBytes(u / 0x80, 5 - i - 1);
    var b := u % 0x80 + 0x80;
    assert VarintBytes(u, 5 - i) + rest == [b] + (tail + rest);
    ReadVarintStep(sent, b, tail + rest, i, acc);
  }

  /** Reading the bytes `VarintBytes(u, 5 - i)` from round `i` yields the accumulated value
      `t = acc + u * 128^i` and leaves exactly what follows them. */
  lemma {:induction false} ReadVarintBytes(u: nat, i: nat, acc: nat, t: nat, sent: seq<byte>, rest: seq<byte>)
    requires i < 5 && u < Scale[5 - i]
    requires t == acc + u * Scale[i]
    ensures ReadVarintFrom(Connection(sent, VarintBytes(u, 5 - i) + rest), i, acc)
         == Step(Success(Signed32(t)), Connection(sent, rest))
    decreases 5 - i
  {
    if u < 0x80 {
      assert VarintBytes(u, 5 - i) + rest == [u] + rest;
      ReadVarintStep(sent, u, rest, i, acc);
      assert Accumulate(acc, u, i) == t by { assert u % 0x80 == u; }
    } else {
      assert i < 4 by { assert Scale[1] == 0x80; }
      ReadVarintContinue(u, i, acc, sent, rest);
      Regroup(u, i, acc, t);
      ReadVarintBytes(u / 0x80, i + 1, Accumulate(acc, u % 0x80 + 0x80, i), t, sent, rest);
    }
  }

  /** `read_varint` after `write_varint(v)` gives `v` back and consumes exactly the bytes
      written, whatever follows them. */
  lemma VarintRoundTrip(v: int, sent: seq<byte>, rest: seq<byte>)
    requires VarintMin <= v <= VarintMax
    ensures ReadVarint(Connection(sent, VarintFrame(v).value + rest)) == Step(Success(v), Connection(sent, rest))
  {
    Pow256Four();
    var u := ToUnsigned(v, 4);
    assert u < 0x1_0000_0000;
    assert VarintFrame(v).value == VarintBytes(u, 5);
    ReadVarintBytes(u, 0, 0, u, sent, rest);
    Signed32Small(u);
    SignedUnsignedInverse(v, 4);
    assert Signed32(u) == v;
    var c := Connection(sent, VarintBytes(u, 5) + rest);
    assert ReadVarint(c) == ReadVarintFrom(c, 0, 0);
    assert ReadVarintFrom(c, 0, 0) == Step(Success(Signed32(u)), Connection(sent, rest));
    assert ReadVarint(c) == Step(Success(v), Connection(sent, rest));
    assert c == Connection(sent, VarintFrame(v).value + rest);
  }

  /** A 32-bit pattern is its own low 32 bits. */
  lemma Signed32Small(u: nat)
    requires u < 0x1_0000_0000
    ensures Signed32(u) == ToSigned(u, 4)
  {
    Pow256Four();
    assert u % 0x1_0000_0000 == u;
  }

  /** Five bytes that all carry the continuation bit are rejected once the fifth is read. */
  lemma {:induction false} ReadVarintTooLong(c: Connection, i: nat, acc: nat)
    requires i <= 5 && |c.received| >= 5 - i
    requires forall k :: 0 <= k < 5 - i ==> c.received[k] >= 0x80
    ensures ReadVarintFrom(c, i, acc) == Step(Failure(VarintTooBig), Read(c, 5 - i).1)
    decreases 5 - i
  {
    if i < 5 {
      var (part, c') := Read(c, 1);
      assert part[0] == c.received[0];
      assert forall k :: 0 <= k < 5 - (i + 1) ==> c'.received[k] == c.received[k + 1];
      ReadVarintTooLong(c', i + 1, Accumulate(acc, part[0], i));
      assert c'.received[5 - i - 1..] == c.received[5 - i..];
    }
  }

  /** Running out of input before a byte without the continuation bit is an IndexError that
      leaves nothing queued. */
  lemma {:induction false} ReadVarintUnderflow(c: Connection, i: nat, acc: nat)
    requires i <= 5 && |c.received| < 5 - i
    requires forall k :: 0 <= k < |c.received| ==> c.received[k] >= 0x80
    ensures ReadVarintFrom(c, i, acc) == Step(Failure(IndexError), Connection(c.sent, []))
    decreases 5 - i
  {
    var (part, c') := Read(c, 1);
    if |c.received| > 0 {
      assert forall k :: 0 <= k < |c'.received| ==> c'.received[k] == c.received[k + 1];
      ReadVarintUnderflow(c', i + 1, Accumulate(acc, part[0], i));
    }
  }

  // ---------------------------------------------------------------- fixed-width integers

  /** The `struct` formats used: `h H i I q Q`, all big-endian. */
  datatype Format = Short | UShort | Int | UInt | Long | ULong {
    function Size(): nat
    {
      match this
      case Short | UShort => 2
      case Int | UInt => 4
      case Long | ULong => 8
    }

    predicate Signed() { Short? || Int? || Long? }

    /** The values `struct.pack` accepts for this format. */
    predicate Fits(v: int) { if Signed() then InSigned(v, Size()) else 0 <= v < Pow256(Size()) }
  }

  /** `struct.unpack(">" + f, bs)`: a StructError unless exactly `f.Size()` bytes are given. */
  function Unpack(f: Format, bs: seq<byte>): (r: Outcome<int>)
    ensures r.Success? <==> |bs| == f.Size()
    ensures r.Failure? ==> r.error == StructError
    ensures r.Success? ==> f.Fits(r.value)
  {
    if |bs| != f.Size() then Failure(StructError)
    else if f.Signed() then Success(ToSigned(DecodeBE(bs), f.Size()))
    else Success(DecodeBE(bs))
  }

  /** `struct.pack(">" + f, v)`: a StructError when `v` does not fit the format; otherwise
      `f.Size()` bytes that unpack to `v`. */
  function Pack(f: Format, v: int): (r: Outcome<seq<byte>>)
    ensures r.Success? <==> f.Fits(v)
    ensures r.Failure? ==> r.error == StructError
    ensures r.Success? ==> |r.value| == f.Size() && Unpack(f, r.value) == Success(v)
  {
    if !f.Fits(v) then Failure(StructError)
    else
      var u := if f.Signed() then ToUnsigned(v, f.Size()) else v;
      var bs := EncodeBE(u, f.Size());
      DecodeEncodeBE(u, f.Size());
      if f.Signed() then SignedUnsignedInverse(v, f.Size()); Success(bs)
      else Success(bs)
  }

  /** Every byte string of the right length is the packing of what it unpacks to. */
  lemma PackUnpack(f: Format, bs: seq<byte>)
    requires |bs| == f.Size()
    ensures Pack(f, Unpack(f, bs).value) == Success(bs)
  {
    EncodeDecodeBE(bs);
  }

  /** `write_short`, `write_ushort`, `write_int`, `write_uint`, `write_long`, `write_ulong`. */
  function WriteFixed(c: Connection, f: Format, v: int): (r: Outcome<Connection>)
    ensures r.Success? <==> f.Fits(v)
    ensures r.Success? ==> r.value == Write(c, Pack(f, v).value)
  {
    var bytes :- Pack(f, v);
    Success(Write(c, bytes))
  }

  /** `read_short` … `read_ulong`: `read(size)` then unpack; a short queue is consumed and
      then rejected by `struct`. */
  function ReadFixed(c: Connection, f: Format): (r: Step<int>)
    ensures r.conn == Read(c, f.Size()).1
    ensures r.result.Success? <==> |c.received| >= f.Size()
    ensures r.result.Success? ==> r.result == Unpack(f, c.received[..f.Size()])
  {
    var (bytes, c') := Read(c, f.Size());
    Step(Unpack(f, bytes), c')
  }

  /** Reading a fixed-width value after writing it gives it back and consumes its bytes. */
  lemma FixedRoundTrip(f: Format, v: int, sent: seq<byte>, rest: seq<byte>)
    requires f.Fits(v)
    ensures ReadFixed(Connection(sent, Pack(f, v).value + rest), f) == Step(Success(v), Connection(sent, rest))
  {
    var bs := Pack(f, v).value;
    assert (bs + rest)[..f.Size()] == bs;
    assert (bs + rest)[f.Size()..] == rest;
  }

  // ---------------------------------------------------------------- length-prefixed UTF-8

  /** What `write_utf` writes as the code stands: the varint of the CHARACTER count, then
      the UTF-8 bytes. For non-ASCII text the prefix is smaller than the byte count. */
  function UtfFrameAsWritten(s: string): (r: Outcome<seq<byte>>)
    ensures r.Success? <==> |s| <= VarintMax
    ensures r.Success? ==> r.value == VarintFrame(|s|).value + Utf8.Encode(s)
  {
    var prefix :- VarintFrame(|s|);
    Success(prefix + Utf8.Encode(s))
  }

  /** The string frame with the prefix `read_utf` expects: the varint of the UTF-8 byte
      count, then those bytes. */
  function UtfFrame(s: string): (r: Outcome<seq<byte>>)
    ensures r.Success? <==> |Utf8.Encode(s)| <= VarintMax
    ensures r.Success? ==> r.value == VarintFrame(|Utf8.Encode(s)|).value + Utf8.Encode(s)
  {
    var bytes := Utf8.Encode(s);
    var prefix :- VarintFrame(|bytes|);
    Success(prefix + bytes)
  }

  /** `write_utf(s)` as the code stands: the character-count frame `UtfFrameAsWritten`. A
      string too long for a varint prefix is a ValueError and writes nothing. */
  function WriteUtf(c: Connection, s: string): (r: Outcome<Connection>)
    ensures r.Success? <==> |s| <= VarintMax
    ensures r.Failure? ==> r.error == VarintOutOfRange
    ensures r.Success? ==> r.value == Write(c, VarintFrame(|s|).value + Utf8.Encode(s))
  {
    var bytes :- UtfFrameAsWritten(s);
    Success(Write(c, bytes))
  }

  /** `read_utf()`: a varint length, that many bytes (a negative length slices as Python
      does), then strict UTF-8 decoding. */
  function ReadUtf(c: Connection): (r: Step<string>)
    ensures r.conn.sent == c.sent
    ensures ReadVarint(c).result.Failure? ==> r == Step(Failure(ReadVarint(c).result.error), ReadVarint(c).conn)
    ensures r.result.Success? ==> ReadVarint(c).result.Success?
    ensures ReadVarint(c).result.Success? ==>
      r.conn == Read(ReadVarint(c).conn, ReadVarint(c).result.value).1
    ensures ReadVarint(c).result.Success? ==>
      (r.result.Success? <==> Utf8.Decode(Read(ReadVarint(c).conn, ReadVarint(c).result.value).0).Some?)
    ensures r.result.Success? ==>
      Utf8.Decode(Read(ReadVarint(c).conn, ReadVarint(c).result.value).0) == Some(r.result.value)
    ensures r.result.Failure? && ReadVarint(c).result.Success? ==> r.result.error == UnicodeDecode
  {
    var Step(length, c1) := ReadVarint(c);
    match length
    case Failure(e) => Step(Failure(e), c1)
    case Success(n) =>
      var (bytes, c2) := Read(c1, n);
      match Utf8.Decode(bytes)
      case None => Step(Failure(UnicodeDecode), c2)
      case Some(s) => Step(Success(s), c2)
  }

  /** `read_utf` recovers every string framed with its byte count. */
  lemma UtfRoundTrip(s: string, sent: seq<byte>, rest: seq<byte>)
    requires UtfFrame(s).Success?
    ensures ReadUtf(Connection(sent, UtfFrame(s).value + rest)) == Step(Success(s), Connection(sent, rest))
  {
    var bytes := Utf8.Encode(s);
    var prefix := VarintFrame(|bytes|).value;
    assert UtfFrame(s).value + rest == prefix + (bytes + rest);
    VarintRoundTrip(|bytes|, sent, bytes + rest);
    assert (bytes + rest)[..|bytes|] == bytes;
    assert (bytes + rest)[|bytes|..] == rest;
    Utf8.DecodeEncode(s);
  }

  /** For ASCII text the two prefixes coincide, so the code as written is right there. */
  lemma UtfFrameAsWrittenAscii(s: string)
    requires Utf8.IsAscii(s)
    ensures UtfFrameAsWritten(s) == UtfFrame(s)
  {
    Utf8.EncodeAscii(s);
  }

  /** What `write_utf` writes for ASCII text, `read_utf` reads back, consuming exactly it. */
  lemma WriteUtfAscii(s: string, sent: seq<byte>, rest: seq<byte>)
    requires Utf8.IsAscii(s) && |s| <= VarintMax
    ensures ReadUtf(Connection(sent, WriteUtf(Fresh, s).value.sent + rest)) == Step(Success(s), Connection(sent, rest))
  {
    UtfFrameAsWrittenAscii(s);
    assert WriteUtf(Fresh, s).value.sent == UtfFrame(s).value;
    UtfRoundTrip(s, sent, rest);
  }

  /** For any non-ASCII text the prefix written is not the length `read_utf` needs. */
  lemma UtfFrameAsWrittenWrongPrefix(s: string)
    requires !Utf8.IsAscii(s) && |Utf8.Encode(s)| <= VarintMax
    ensures UtfFrameAsWritten(s) != UtfFrame(s)
  {
    Utf8.EncodeLongerUnlessAscii(s);
    var e := Utf8.Encode(s);
    var a := VarintFrame(|s|).value;
    var b := VarintFrame(|e|).value;
    VarintRoundTrip(|s|, [], []);
    VarintRoundTrip(|e|, [], []);
    assert a + [] == a && b + [] == b;
    assert a != b;
    if |a| == |b| {
      assert (a + e)[..|a|] == a && (b + e)[..|b|] == b;
    } else {
      assert |a + e| != |b + e|;
    }
  }

  /** "é" (U+00E9): as written, the frame is 01 C3 A9; `read_utf` takes one byte, C3, which
      is not UTF-8 on its own, so the round trip fails whatever follows the frame. */
  lemma UtfAsWrittenCounterexample(rest: seq<byte>)
    ensures UtfFrameAsWritten("é") == Success([0x01, 0xC3, 0xA9])
    ensures ReadUtf(Connection([], UtfFrameAsWritten("é").value + rest)).result == Failure(UnicodeDecode)
  {
    var frame: seq<byte> := [0x01, 0xC3, 0xA9];
    assert Utf8.EncodeChar('é') == [0xC3, 0xA9];
    assert Utf8.Encode("é") == [0xC3, 0xA9] by {
      assert Utf8.Encode("é") == Utf8.EncodeChar('é') + Utf8.Encode("");
    }
    assert VarintFrame(1).value == [0x01] by {
      assert ToUnsigned(1, 4) == 1;
      assert VarintBytes(1, 5) == [1];
    }
    assert UtfFrameAsWritten("é").value == frame;
    VarintRoundTrip(1, [], [0xC3, 0xA9] + rest);
    assert [0x01] + ([0xC3, 0xA9] + rest) == frame + rest;
    var c1 := Connection([], [0xC3, 0xA9] + rest);
    assert ReadVarint(Connection([], frame + rest)) == Step(Success(1), c1);
    assert Read(c1, 1).0 == [0xC3];
    assert Utf8.DecodeChar([0xC3]) == None;
    assert Utf8.Decode([0xC3]) == None;
  }

  // ---------------------------------------------------------------- NUL-terminated Latin-1

  /** `write_ascii(s)`: the ISO-8859-1 bytes then 00; characters above U+00FF cannot be encoded. */
  function AsciiFrame(s: string): (r: Outcome<seq<byte>>)
    ensures r.Success? <==> forall i :: 0 <= i < |s| ==> s[i] as int < 256
    ensures r.Success? ==> |r.value| == |s| + 1 && r.value[|s|] == 0
    ensures r.Success? ==> forall i :: 0 <= i < |s| ==> r.value[i] == s[i] as int
  {
    var bytes :- Utf8.Latin1Encode(s);
    Success(bytes + [0])
  }

  function WriteAscii(c: Connection, s: string): (r: Outcome<Connection>)
    ensures r.Success? <==> AsciiFrame(s).Success?
    ensures r.Success? ==> r.value == Write(c, AsciiFrame(s).value)
  {
    var bytes :- AsciiFrame(s);
    Success(Write(c, bytes))
  }

  /** `read_ascii()`: everything up to and including the first 00, decoded as ISO-8859-1
      without the 00. With no 00 queued the in-memory loop never ends; that case is a
      MissingTerminator failure here. */
  function ReadAscii(c: Connection): (r: Step<string>)
    ensures r.conn.sent == c.sent
    ensures r.result.Success? <==> 0 in c.received
    ensures r.result.Success? ==> var k := |r.result.value|;
      k < |c.received| && c.received[k] == 0 && 0 !in c.received[..k]
      && r.conn.received == c.received[k + 1..]
      && forall i :: 0 <= i < k ==> r.result.value[i] as int == c.received[i]
  {
    if 0 !in c.received then Step(Failure(MissingTerminator), c.(received := []))
    else
      var k := Text.IndexOf(c.received, 0);
      var (bytes, c') := Read(c, k + 1);
      Step(Success(Utf8.Latin1Decode(bytes[..k])), c')
  }

  /** The frame of `s` is the byte string holding its character codes and a final 00. */
  lemma AsciiFrameBytes(s: string, bs: seq<byte>)
    requires |bs| == |s| + 1 && bs[|s|] == 0
    requires forall i :: 0 <= i < |s| ==> bs[i] == s[i] as int
    ensures AsciiFrame(s) == Success(bs)
  {
    forall i | 0 <= i < |s|
      ensures s[i] as int < 256
    {
      assert bs[i] == s[i] as int;
    }
    var v := AsciiFrame(s).value;
    assert forall i :: 0 <= i < |bs| ==> v[i] == bs[i];
    assert v == bs;
  }

  /** NUL-free Latin-1 text survives `write_ascii` then `read_ascii`. */
  lemma AsciiRoundTrip(s: string, sent: seq<byte>, rest: seq<byte>)
    requires AsciiFrame(s).Success?
    requires forall i :: 0 <= i < |s| ==> s[i] != '\0'
    ensures ReadAscii(Connection(sent, AsciiFrame(s).value + rest)) == Step(Success(s), Connection(sent, rest))
  {
    var f := AsciiFrame(s).value;
    var c := Connection(sent, f + rest);
    assert c.received[|s|] == 0;
    assert Text.IndexOf(c.received, 0) == |s| by {
      var k := Text.IndexOf(c.received, 0);
      assert forall i :: 0 <= i < |s| ==> c.received[i] != 0;
    }
    var r := ReadAscii(c);
    assert |r.result.value| == |s|;
    assert forall i :: 0 <= i < |s| ==> r.result.value[i] == s[i];
    assert r.result.value == s;
    assert c.received[|s| + 1..] == rest;
    assert r.conn == Connection(sent, rest);
  }

  // ---------------------------------------------------------------- nested buffers

  /** `write_buffer(buffer)` for a buffer holding `data`: varint length, then the bytes. */
  function BufferFrame(data: seq<byte>): (r: Outcome<seq<byte>>)
    ensures r.Success? <==> |data| <= VarintMax
    ensures r.Success? ==> r.value == VarintFrame(|data|).value + data
  {
    var prefix :- VarintFrame(|data|);
    Success(prefix + data)
  }

  /** `write_buffer(buffer)`: the buffer's flushed bytes as one length-prefixed packet. */
  function WriteBuffer(c: Connection, buffer: Connection): (r: Outcome<Connection>)
    ensures r.Success? <==> BufferFrame(buffer.sent).Success?
    ensures r.Success? ==> r.value == Write(c, BufferFrame(buffer.sent).value)
  {
    var bytes :- BufferFrame(Flush(buffer).0);
    Success(Write(c, bytes))
  }

  /** A buffer shorter than 128 bytes gets a one-byte length prefix. */
  lemma SmallBufferFrame(data: seq<byte>)
    requires |data| < 0x80
    ensures BufferFrame(data) == Success([|data|] + data)
  {
    SmallVarint(|data|);
  }

  /** `read_buffer()`: a varint length, then a fresh connection receiving that many bytes. */
  function ReadBuffer(c: Connection): (r: Step<Connection>)
    ensures r.conn.sent == c.sent
    ensures r.result.Success? <==> ReadVarint(c).result.Success?
    ensures r.result.Failure? ==> r == Step(Failure(ReadVarint(c).result.error), ReadVarint(c).conn)
    ensures r.result.Success? ==> r.result.value.sent == [] && r.result.value.received + r.conn.received == ReadVarint(c).conn.received
  {
    var Step(length, c1) := ReadVarint(c);
    match length
    case Failure(e) => Step(Failure(e), c1)
    case Success(n) =>
      var (bytes, c2) := Read(c1, n);
      assert Receive(Fresh, bytes).received == bytes;
      Step(Success(Receive(Fresh, bytes)), c2)
  }

  /** On the in-memory queue `read_buffer` does not insist on the length it announces: a
      one-byte length `n` followed by fewer than `n` bytes gives a buffer of the bytes there are. */
  lemma ReadBufferShort(sent: seq<byte>, n: nat, body: seq<byte>)
    requires n < 0x80 && |body| <= n
    ensures ReadBuffer(Connection(sent, [n as byte] + body)) == Step(Success(Connection([], body)), Connection(sent, []))
  {
    SmallVarint(n);
    assert [n as byte] + body == VarintFrame(n).value + body;
    VarintRoundTrip(n, sent, body);
    assert Read(Connection(sent, body), n).0 == body;
  }

  /** `read_buffer` hands back, in a fresh connection, exactly the bytes a buffer frame holds. */
  lemma BufferRoundTrip(data: seq<byte>, sent: seq<byte>, rest: seq<byte>)
    requires |data| <= VarintMax
    ensures ReadBuffer(Connection(sent, BufferFrame(data).value + rest))
         == Step(Success(Connection([], data)), Connection(sent, rest))
  {
    var prefix := VarintFrame(|data|).value;
    assert BufferFrame(data).value + rest == prefix + (data + rest);
    VarintRoundTrip(|data|, sent, data + rest);
    var c1 := Connection(sent, data + rest);
    assert ReadVarint(Connection(sent, prefix + (data + rest))) == Step(Success(|data|), c1);
    assert (data + rest)[..|data|] == data;
    assert (data + rest)[|data|..] == rest;
    assert Read(c1, |data|) == (data, Connection(sent, rest));
    assert Receive(Fresh, data) == Connection([], data);
  }
}
