# mcstatus protocol core in Dafny

A functional model of the protocol layer of mcstatus, the Python client that asks Minecraft
servers for their status. The model covers:

- the in-memory `Connection` byte queue and its codecs: varints, `struct` integers,
  length-prefixed UTF-8, NUL-terminated ISO-8859-1 and length-prefixed buffers (module
  `Protocol`);
- the Java Edition Server List Ping, the `ServerPinger` handshake, status request and
  ping, and the validation of the status document by `PingResponse` (module `Pinger`);
- the Query protocol client `ServerQuerier`: the challenge handshake, the full-stat request
  and its parse, and `QueryResponse` with the server software and plugins (module `Querier`);
- the Bedrock Edition unconnected-ping exchange and `parse_response` (module `Bedrock`);
- the `retry` and `deprecated` decorators (module `Utils`);
- the `MinecraftServer` and `MinecraftBedrockServer` entry points (module `Server`). This
  covers argument validation, defaults and `lookup` with the DNS answer as a parameter. It
  covers `ping` and `status` as three attempts that share one TCP connection. It covers
  `query` as three fresh UDP exchanges after the A-record fallback. It covers the Bedrock
  `status` as up to three fresh attempts, or as many as a `tries=` keyword asks for;
- the stand-alone Python 2 script `minecraft_query.py`: `send_packet` and `read_packet`,
  the challenge handshake, `get_status`, `get_rules` and `parse_plugins` (module
  `LegacyQuery`).

Supporting modules: `Wrappers` holds `Option`, `Result` and the error taxonomy. `Bytes` holds
big- and little-endian integers and two's complement. `Utf8` holds strict UTF-8 and Latin-1.
`Text` holds Python's `split`, `split(sep, n)`, `strip`, `find` and `int()` in its Python 2
and Python 3 dialects. `Json` holds the values `json.loads` produces.

State is explicit throughout. A `Connection` is a pair of byte sequences `sent` and
`received`. Every read returns its outcome together with the connection it leaves
(`Step`). A Python exception is a `Failure` carrying an `Error` constructor per cause.
The `*_vectors` modules restate the byte strings of the repository's unit tests as lemmas
about the model.

Where the code and the library's own description of it differ, the model follows the code:

- `read_varint` does not reject a five-byte varint whose value exceeds 32 bits. It cuts the
  collected bits to 32 and reads them as signed, so `FF FF FF FF 7F` is -1
  (`ProtocolVectors.VarintReadTruncates`). The unit test at
  mcstatus/tests/protocol/test_connection.py:52-55 expects 34359738367, which the code
  cannot return.
- `write_utf` prefixes the character count, not the UTF-8 byte count, and `Protocol.WriteUtf`
  does the same. What it writes reads back only for ASCII text (`Protocol.WriteUtfAscii`).
  The handshake of a host such as "é" cannot be read back (`Pinger.HandshakeAccentedHost`).
  The byte-count frame `Protocol.UtfFrame` is the corrected form. It is also what a server
  writes in its status reply (see Findings).
- `get_status` in `minecraft_query.py` reads the host port as a signed short, and so does
  `LegacyQuery.ParseBasicStat`. A port from 32768 up is reported 65536 too low
  (`LegacyQuery.ReportedPort`, see Findings).
- The script's `handshake` stores the challenge before packing it. A challenge beyond 32
  bits raises struct.error and leaves the object with that challenge beside the packing of
  0. The next request then skips the handshake and sends challenge 0
  (`LegacyQuery.StaleChallenge`).
- `ping` and `status` create one TCP connection and let all three attempts share it. Only
  `query` and the Bedrock `status` start each attempt afresh.
- `parse_response` decodes the Bedrock server-id string before its `try`. A decoding error
  and fewer than six fields raise exceptions. Only the map and the game mode fall back to
  `None`.
- Only NXDOMAIN falls back, to the default port in `lookup` and to the host itself in
  `query`. Any other resolver error propagates.
- The Query client always sends session id 0.

## Model

| member | source | states |
|---|---|---|
| Bytes.EncodeBE | mcstatus/protocol/connection.py:46-47 | the big-endian form of a value has exactly the field width |
| Bytes.DecodeBE | mcstatus/protocol/connection.py:43-44 | the unsigned value of n big-endian bytes is below 256^n |
| Bytes.DecodeEncodeBE | mcstatus/protocol/connection.py:43-47 | unpacking the big-endian packing of a value that fits gives the value back |
| Bytes.EncodeDecodeBE | mcstatus/protocol/connection.py:43-47 | every byte string is the packing of the value it unpacks to |
| Bytes.DecodeLE | minecraft_query.py:88 | the little-endian value of n bytes is below 256^n |
| Bytes.ToUnsigned | mcstatus/protocol/connection.py:61 | the two's-complement pattern of a signed value is in range, and it lies in the upper half exactly when the value is negative |
| Bytes.ToSigned | mcstatus/protocol/connection.py:55 | the signed reading of a pattern lies in the signed range and maps back to the same pattern |
| Bytes.SignedUnsignedInverse | mcstatus/protocol/connection.py:55-61 | reading a signed value's pattern as signed gives the value back |
| Protocol.Read | mcstatus/protocol/connection.py:18-21 | `read(n)` returns a prefix of the inbound queue and leaves exactly the rest. Its length is min(n, queued), or the Python slice length for negative n. Nothing written changes |
| Protocol.Write | mcstatus/protocol/connection.py:23-28 | `write` appends the data behind what was already written, and the inbound queue is untouched |
| Protocol.WriteConnection | mcstatus/protocol/connection.py:23-25 | writing a Connection writes what it held, and leaves it with nothing to send and its inbound queue as it was |
| Protocol.Receive | mcstatus/protocol/connection.py:30-33 | `receive` queues the data behind the bytes already queued, which stay in front. Nothing written changes |
| Protocol.ReceiveReadsFirst | mcstatus/protocol/connection.py:30-36 | after `receive`, `remaining` grows by the data's length, and reading the old count returns the old bytes and leaves exactly the data |
| Protocol.Remaining | mcstatus/protocol/connection.py:35-36 | `remaining` is how much a read can take: reading that many bytes returns the whole queue and empties it |
| Protocol.Flush | mcstatus/protocol/connection.py:38-41 | after `flush` nothing is left to send, and writing the returned bytes back restores the connection |
| Protocol.WriteFlush | mcstatus/protocol/connection.py:23-41 | writes accumulate in order, and `flush` returns exactly them and empties the outbound queue |
| Protocol.WriteConnectionFlushes | mcstatus/protocol/connection.py:23-28 | writing a Connection appends everything it held and empties its outbound queue |
| Protocol.ReceiveRemaining | mcstatus/protocol/connection.py:30-36 | `receive` appends to the inbound queue and `remaining` counts all of it |
| Protocol.ReadRead | mcstatus/protocol/connection.py:18-21 | two consecutive reads take the same bytes as one read of their total length |
| Protocol.VarintBytes | mcstatus/protocol/connection.py:62-67 | the emitted groups number one to five. Every byte but the last carries the continuation bit, and the last does not. The varint is one byte exactly when the value is below 128 |
| Protocol.VarintFrame | mcstatus/protocol/connection.py:58-67 | values outside [-2^31, 2^31-1] are a ValueError, and every other value gets 1-5 bytes with the continuation layout |
| Protocol.SmallVarint | mcstatus/protocol/connection.py:63-65 | a value in 0..127 is sent as the single byte it is |
| Protocol.WriteVarint | mcstatus/protocol/connection.py:58-67 | an out-of-range value writes nothing and fails; otherwise exactly its varint bytes are appended |
| Protocol.ReadVarintFrom | mcstatus/protocol/connection.py:49-56 | the read loop never writes and only consumes. A success consumes at least one byte and yields a signed 32-bit value |
| Protocol.ReadVarint | mcstatus/protocol/connection.py:49-56 | `read_varint` never writes and takes at most five bytes from the front of the queue. A success takes at least one and gives a signed 32-bit value |
| Protocol.ReadVarintFromConsumes | mcstatus/protocol/connection.py:51-56 | from round i the loop takes a prefix of the queue of at most 5 - i bytes |
| Protocol.Signed32 | mcstatus/protocol/connection.py:55 | `c_int32(x).value` is always in the signed 32-bit range |
| Protocol.ReadVarintStep | mcstatus/protocol/connection.py:51-55 | one loop round reads one byte and either returns or continues with that byte's group added at its weight |
| Protocol.ReadVarintContinue | mcstatus/protocol/connection.py:51-55 | a continuation byte adds its group, and the rest of the value still fits the remaining rounds |
| Protocol.ReadVarintBytes | mcstatus/protocol/connection.py:49-56 | from any round, reading the groups the writer emits for the rest of the value completes that value and consumes exactly those bytes |
| Protocol.VarintRoundTrip | mcstatus/protocol/connection.py:49-67 | `read_varint` after `write_varint(v)` returns v and consumes exactly the bytes written |
| Protocol.ReadVarintTooLong | mcstatus/protocol/connection.py:56 | five bytes that all carry the continuation bit raise the too-big IOError after consuming all five |
| Protocol.ReadVarintUnderflow | mcstatus/protocol/connection.py:52 | running out of bytes before the last group is an IndexError with the queue emptied |
| Protocol.Unpack | mcstatus/protocol/connection.py:43-44 | unpacking succeeds exactly on the format's width, with a value the format can hold; otherwise it is a struct.error |
| Protocol.Pack | mcstatus/protocol/connection.py:46-47 | packing succeeds exactly when the value fits the format and yields bytes that unpack to the value; otherwise it is a struct.error |
| Protocol.PackUnpack | mcstatus/protocol/connection.py:43-47 | every byte string of the format's width is the packing of what it unpacks to |
| Protocol.WriteFixed | mcstatus/protocol/connection.py:90-121 | `write_short` … `write_ulong` succeed exactly when the value fits and then append its packing |
| Protocol.ReadFixed | mcstatus/protocol/connection.py:87-118 | `read_short` … `read_ulong` always consume up to the width and succeed exactly when a full width was queued, giving its unpacking |
| Protocol.FixedRoundTrip | mcstatus/protocol/connection.py:87-121 | reading a fixed-width value after writing it gives it back and consumes only its bytes |
| Protocol.UtfFrameAsWritten | mcstatus/protocol/connection.py:73-75 | as written, the frame is the varint of the character count followed by the UTF-8 bytes |
| Protocol.UtfFrame | mcstatus/protocol/connection.py:69-75 | the corrected frame is the varint of the UTF-8 byte count followed by those bytes |
| Protocol.WriteUtf | mcstatus/protocol/connection.py:73-75 | `write_utf` appends the varint of the character count followed by the UTF-8 bytes. It raises ValueError and writes nothing when the count does not fit a varint |
| Protocol.ReadUtf | mcstatus/protocol/connection.py:69-71 | `read_utf` never writes, and a failed length read is passed on unchanged. After a length n it consumes n bytes. It succeeds exactly when they are valid UTF-8 and returns their decoding; otherwise it raises UnicodeDecodeError |
| Protocol.UtfRoundTrip | mcstatus/protocol/connection.py:69-75 | `read_utf` recovers every string framed with its byte count and consumes exactly the frame |
| Protocol.WriteUtfAscii | mcstatus/protocol/connection.py:69-75 | ASCII text written by `write_utf` is read back by `read_utf`, which consumes exactly what was written |
| Protocol.UtfFrameAsWrittenAscii | mcstatus/protocol/connection.py:73-75 | for ASCII text the written prefix equals the byte count |
| Protocol.UtfFrameAsWrittenWrongPrefix | mcstatus/protocol/connection.py:74 | for any non-ASCII text the written frame differs from the one `read_utf` needs |
| Protocol.UtfAsWrittenCounterexample | mcstatus/protocol/connection.py:69-75 | "é" is written as 01 C3 A9, and `read_utf` on those bytes raises UnicodeDecodeError whatever follows them |
| Protocol.AsciiFrame | mcstatus/protocol/connection.py:83-85 | `write_ascii` succeeds exactly on Latin-1 text, giving one byte per character code and a final 00 |
| Protocol.WriteAscii | mcstatus/protocol/connection.py:83-85 | on success exactly that frame is appended |
| Protocol.ReadAscii | mcstatus/protocol/connection.py:77-81 | `read_ascii` succeeds exactly when a 00 is queued. It returns the Latin-1 text before the first 00 and consumes through that 00 |
| Protocol.AsciiFrameBytes | mcstatus/protocol/connection.py:83-85 | the frame of a text is the byte string of its character codes with a final 00 |
| Protocol.AsciiRoundTrip | mcstatus/protocol/connection.py:77-85 | NUL-free Latin-1 text survives `write_ascii` then `read_ascii`, which consumes exactly the frame |
| Protocol.BufferFrame | mcstatus/protocol/connection.py:129-132 | a buffer is framed as the varint of its length followed by its bytes |
| Protocol.WriteBuffer | mcstatus/protocol/connection.py:129-132 | `write_buffer` appends the frame of the buffer's flushed bytes |
| Protocol.SmallBufferFrame | mcstatus/protocol/connection.py:131 | a buffer shorter than 128 bytes gets a one-byte length |
| Protocol.ReadBuffer | mcstatus/protocol/connection.py:123-127 | `read_buffer` succeeds exactly when the length reads. The new connection's bytes and what stays queued together are everything after the length |
| Protocol.ReadBufferShort | mcstatus/protocol/connection.py:18-21 | a length byte n followed by fewer than n bytes gives a buffer holding just those bytes, not an error (see Left out) |
| Protocol.BufferRoundTrip | mcstatus/protocol/connection.py:123-132 | `read_buffer` returns, in a fresh connection, exactly the bytes that `write_buffer` framed |
| ProtocolVectors.VarintFrames | mcstatus/tests/protocol/test_connection.py:47-70 | 15 is 0F, and 2^31-1 is FF FF FF FF 07. -1 is FF FF FF FF 0F. 2^35 is a ValueError |
| ProtocolVectors.VarintReadTruncates | mcstatus/protocol/connection.py:49-56 | FF FF FF FF 7F is read as -1 |
| ProtocolVectors.VarintReadTooBig | mcstatus/tests/protocol/test_connection.py:62-66 | FF FF FF FF 80 is rejected as too big |
| ProtocolVectors.ShortFrames | mcstatus/tests/protocol/test_connection.py:102-130 | -32768 as `h` is 80 00 and 32767 is 7F FF. 32768 as `H` is 80 00, and 32768 does not fit `h` |
| ProtocolVectors.IntFrames | mcstatus/tests/protocol/test_connection.py:132-160 | -2^31 as `i` and 2^31 as `I` are both 80 00 00 00 |
| ProtocolVectors.LongFrame | mcstatus/tests/protocol/test_connection.py:172-180 | 2^63-1 as `q` is 7F followed by seven FF |
| ProtocolVectors.EmptyAndBufferFrames | mcstatus/tests/protocol/test_connection.py:82-100 | the empty string is a lone 00 under both string framings, and the buffer 7F AA is framed as 02 7F AA |
| ProtocolVectors.NegativeBufferLength | mcstatus/protocol/connection.py:123-127 | on the in-memory queue a buffer whose length reads as -1 (FF FF FF FF 0F) holds all but the last of the bytes after it, and that last byte stays queued (see Left out) |
| ProtocolVectors.ReadBufferVector | mcstatus/tests/protocol/test_connection.py:192-197 | reading 02 7F AA gives a buffer holding 7F AA and leaves nothing queued |
| Json.Contains | mcstatus/pinger.py:170 | `key in v` is key membership for a dict. For a list it holds when some element equals the string. For a str it holds when key occurs at some index. Other values raise TypeError |
| Json.Index | mcstatus/pinger.py:172 | `v[key]` succeeds only on a dict that has the key |
| Utf8.EncodeChar | mcstatus/protocol/connection.py:75 | a character takes 1-4 bytes, and one byte exactly when it is ASCII |
| Utf8.Encode | mcstatus/protocol/connection.py:75 | the UTF-8 form is never shorter than the text |
| Utf8.DecodeChar | mcstatus/protocol/connection.py:71 | a decoded character uses 1-4 bytes of the input |
| Utf8.Decode | mcstatus/protocol/connection.py:71 | a decoded text has no more characters than the input has bytes |
| Utf8.DecodeEncodeChar | mcstatus/protocol/connection.py:71-75 | decoding the front of an encoded character gives the character and its length, whatever follows |
| Utf8.DecodeEncode | mcstatus/protocol/connection.py:71-75 | strict UTF-8 decoding undoes encoding for every text |
| Utf8.EncodeAppend | mcstatus/protocol/connection.py:75 | encoding distributes over concatenation |
| Utf8.EncodeAscii | mcstatus/protocol/connection.py:74-75 | the UTF-8 form of ASCII text is its character codes |
| Utf8.EncodeLongerUnlessAscii | mcstatus/protocol/connection.py:74-75 | the byte count equals the character count exactly for ASCII text |
| Utf8.Latin1Encode | mcstatus/protocol/connection.py:84 | ISO-8859-1 encoding succeeds exactly when every code is below 256 and gives those codes; otherwise it is an encode error |
| Utf8.Latin1Decode | mcstatus/protocol/connection.py:81 | every byte decodes to the character with that code |
| Utf8.Latin1RoundTrip | mcstatus/protocol/connection.py:81-84 | decoding the Latin-1 encoding of a text gives it back |
| Text.Split | mcstatus/querier.py:82 | `split(d)` gives at least one piece, none holding d, and joining them with d restores the input |
| Text.SplitJoin | mcstatus/querier.py:82 | splitting a join of separator-free pieces gives the pieces back |
| Text.SplitOnce | mcstatus/querier.py:78 | `split(d, 1)` gives one piece exactly when d is absent. Otherwise it gives the separator-free head and the rest around the first d |
| Text.SplitOnceAt | mcstatus/querier.py:78 | splitting at a separator absent from the head gives the head and the tail |
| Text.SplitMax | minecraft_query.py:86-87 | `split(d, n)` gives at most n+1 pieces, made at the first separators, and only the last piece may hold d |
| Text.SplitMaxJoin | minecraft_query.py:86-87 | splitting n times a join of n+1 pieces whose first n hold no separator gives the pieces back |
| Text.Find | minecraft_query.py:120 | `find` returns the leftmost occurrence, or reports none at any position |
| Text.SplitOn | minecraft_query.py:120 | splitting at a multi-character separator always gives at least one piece |
| Text.SplitOnOnce | minecraft_query.py:120 | a separator that occurs once, right after a head, splits the text into that head and the tail |
| Text.LStrip | mcstatus/querier.py:79 | `lstrip` removes exactly the leading whitespace |
| Text.RStrip | mcstatus/server.py:65 | `rstrip` removes exactly the trailing run of the class |
| Text.Strip | mcstatus/querier.py:79 | `strip` leaves text that neither starts nor ends with whitespace, and all-whitespace text becomes empty |
| Text.StripTrimmed | mcstatus/querier.py:79 | text already trimmed is left unchanged |
| Text.StripAfterSpace | mcstatus/querier.py:82 | one leading whitespace character before trimmed text is dropped |
| Text.Digits | mcstatus/querier.py:33 | decimal digits have no leading zero |
| Text.FormatInt | mcstatus/querier.py:33 | `str(n)` is never empty |
| Text.ParseFormatInt | mcstatus/querier.py:33 | `int(str(n)) == n` in both the Python 2 and the Python 3 dialect |
| Text.ParseInt | mcstatus/querier.py:33 | `int(text)` fails on blank text. It succeeds exactly when the stripped text, without a leading sign, is well-formed digits (with `_` between digits in Python 3), and the value is those digits' value, negated after a '-'. In Python 2 blanks between the sign and the digits are skipped as well (minecraft_query.py:69, 94, 137 use that dialect). A success's stripped text holds only digits, the sign, `_` in Python 3 and, in Python 2, blanks after the sign |
| Text.SpaceAfterSign | minecraft_query.py:69 | in Python 2 a sign, any run of blanks and well-formed digits parse to the signed value of the digits |
| Text.SpaceAfterSignRejected | mcstatus/querier.py:33 | in Python 3 a blank right after the sign makes `int()` fail, whatever follows |
| Text.SpaceAfterSignVector | minecraft_query.py:69 | Python 2 reads "- 5" as -5 |
| Text.SpaceAfterSignRejectedVector | mcstatus/querier.py:33 | Python 3 rejects "- 5" |
| Text.ParseDigits | mcstatus/querier.py:33 | well-formed digits with no sign parse to their value in both dialects |
| Text.ParseNegated | mcstatus/querier.py:33 | '-' before well-formed digits parses to minus their value in both dialects |
| Text.ParseIllFormed | mcstatus/querier.py:33 | trimmed text whose magnitude is not well-formed digits does not parse |
| Text.ParseSigned | mcstatus/querier.py:33 | trimmed text with a well-formed magnitude parses to that magnitude's value, negated when the first character is '-' |
| Text.SkipBlanksRun | minecraft_query.py:69 | the blanks skipped after a sign are exactly a run of blanks in front of a non-blank |
| Querier.ZeroWordPacked | mcstatus/querier.py:19 | session id 0 as `I` is four zero bytes |
| Querier.CreatePacket | mcstatus/querier.py:15-21 | the packet is FE FD, the type, four zero bytes, then the challenge as a signed int. It is a struct.error when the challenge does not fit |
| Querier.ReadPacket | mcstatus/querier.py:23-27 | the whole datagram is taken off the connection, and its first five bytes are dropped |
| Querier.ReadPacketAfterHeader | mcstatus/querier.py:23-27 | behind any five header bytes, the body is exactly what is read |
| Querier.Handshake | mcstatus/querier.py:29-33 | the challenge request is written and the datagram consumed. A success stores `int()` of the NUL-terminated text after the header |
| Querier.FieldRoundTrip | mcstatus/protocol/connection.py:77-85 | a NUL-free Latin-1 field is read back whole |
| Querier.HandshakeReply | mcstatus/querier.py:29-33 | the reply text sets the challenge to `int(text)` or fails with a ValueError. Either way the request is written and the datagram consumed |
| Querier.HandshakeRoundTrip | mcstatus/querier.py:29-33 | a server that sends the decimal token n gives the querier challenge n |
| Querier.QueryRequest | mcstatus/querier.py:36-38 | the full-stat request is the type-0 packet and four zero bytes, or a struct.error |
| Querier.ReadPairs | mcstatus/querier.py:45-51 | the pair loop never writes and only adds keys to what was collected |
| Querier.ReadNames | mcstatus/querier.py:55-59 | the name loop only appends, and every name it appends is non-empty |
| Querier.ParseStat | mcstatus/querier.py:40-61 | every player name parsed is non-empty |
| Querier.Collect | mcstatus/querier.py:51 | storing pairs adds exactly their keys |
| Querier.CollectLast | mcstatus/querier.py:51 | a key ends up with the value of its last occurrence |
| Querier.CollectUntouched | mcstatus/querier.py:51 | pairs that do not mention a key leave its value alone |
| Querier.ReadPairsStep | mcstatus/querier.py:46-51 | one round stores a framed key and value and continues behind them |
| Querier.ReadPairsEnd | mcstatus/querier.py:47-49 | the empty key ends the loop and one more byte is skipped |
| Querier.ReadPairsRoundTrip | mcstatus/querier.py:45-51 | the pair loop reads back every framed list of pairs with non-empty keys |
| Querier.ReadNamesStep | mcstatus/querier.py:56-59 | one round appends a framed non-empty name |
| Querier.ReadNamesEnd | mcstatus/querier.py:57-58 | the empty name ends the loop |
| Querier.ReadNamesRoundTrip | mcstatus/querier.py:55-59 | the name loop reads back every framed list of non-empty names |
| Querier.ParseStatRoundTrip | mcstatus/querier.py:40-61 | a full-stat body built from pairs and names parses to the collected pairs and exactly those names |
| Querier.StripEach | mcstatus/querier.py:82 | each piece is stripped, with the count unchanged |
| Querier.ParseSoftware | mcstatus/querier.py:72-82 | empty text means "vanilla" with no plugins. Text without a colon is the stripped brand with no plugins. With a colon there is at least one plugin and none holds ';' |
| Querier.SoftwareRoundTrip | mcstatus/querier.py:72-82 | the brand and plugins are recovered from the text a server sends for them |
| Querier.ParseSoftwareSplit | mcstatus/querier.py:77-82 | with a colon, the brand is the stripped head and the plugins are the stripped ';'-pieces of the rest |
| Querier.StripSpaced | mcstatus/querier.py:82 | stripping each space-prefixed plugin gives the plugins back |
| Querier.MakeResponse | mcstatus/querier.py:64-89 | `QueryResponse` succeeds exactly when the six keys are present and both counts are integers. A KeyError names a missing required key, and a ValueError carries the count that failed |
| Querier.MakeResponseRoundTrip | mcstatus/querier.py:84-89 | a raw map holding the six fields yields exactly them, whatever else it holds |
| Querier.ReadQuery | mcstatus/querier.py:35-61 | the request is written and the datagram consumed whatever the outcome. A success is `QueryResponse` of the parsed body |
| Querier.ReadQueryRoundTrip | mcstatus/querier.py:35-61 | a full-stat datagram built from pairs and names gives the response built from those pairs and names |
| QuerierVectors.ChallengeRequestVector | mcstatus/tests/test_querier.py:9-12 | a new querier's challenge request is FE FD 09 followed by eight zero bytes |
| QuerierVectors.FreshPacket | mcstatus/querier.py:11-21 | a new querier's packets carry challenge 0 |
| QuerierVectors.QueryRequestVector | mcstatus/tests/test_querier.py:22 | a new querier's full-stat request is FE FD 00 followed by twelve zero bytes |
| QuerierVectors.HandshakeVector | mcstatus/tests/test_querier.py:9-13 | the reply 09 00 00 00 00 "570350778" 00 sets the challenge to 570350778 |
| QuerierVectors.VanillaVector | mcstatus/tests/test_querier.py:71-75 | empty plugin text is vanilla with no plugins |
| QuerierVectors.ModdedVector | mcstatus/tests/test_querier.py:77-80 | "A modded server: Foo 1.0; Bar 2.0; Baz 3.0" is that brand with three plugins |
| QuerierVectors.ResponseVector | mcstatus/tests/test_querier.py:54-63 | the sample fields give the motd, the map, 3 of 20 players, the names, vanilla and version 1.8 |
| Pinger.StringField | mcstatus/pinger.py:115-119 | a required str field succeeds exactly when it is present and a string. Otherwise the error says whether it is missing or of the wrong type |
| Pinger.IntField | mcstatus/pinger.py:131-135 | a required int field succeeds exactly when it is present and an int, a bool counting as one. Otherwise the error says missing or wrong type |
| Pinger.ParsePlayer | mcstatus/pinger.py:110-125 | a player is accepted exactly when it is a dict with str name and id |
| Pinger.ParseSample | mcstatus/pinger.py:143-146 | a sample is accepted exactly when every entry is a valid player. The players then correspond entry by entry, and otherwise the error of the first invalid entry is reported |
| Pinger.ParsePlayers | mcstatus/pinger.py:127-148 | the players block is accepted exactly when it is valid. Online and max are taken as given, and a sample is present exactly when the key is |
| Pinger.ParseVersion | mcstatus/pinger.py:150-165 | the version is accepted exactly when it is a dict with str name and int protocol |
| Pinger.Reject | mcstatus/pinger.py:41-44 | the validator's ValueError is passed on as `Rejected` with its reason, and successes pass unchanged |
| Pinger.ParsePingResponse | mcstatus/pinger.py:167-187 | the document is accepted exactly when it is a valid status. Each field comes from its key, latency starts unset, and a non-dict fails |
| Pinger.ParsePlayerJson | mcstatus/pinger.py:110-125 | the player a server describes is accepted as itself |
| Pinger.ParseSampleJson | mcstatus/pinger.py:143-146 | the sample a server describes is accepted as itself |
| Pinger.ParsePlayersJson | mcstatus/pinger.py:127-148 | the players block a server describes is accepted as itself |
| Pinger.ParseStatusJson | mcstatus/pinger.py:167-187 | every document built from players, a version, a description and an optional favicon is accepted with those values |
| Pinger.NewPinger | mcstatus/pinger.py:10-17 | the pinger keeps host, port and version. The token is the one given, or else a random value in the signed 64-bit range |
| Pinger.HandshakePacket | mcstatus/pinger.py:19-25 | the handshake packet frames the host with `write_utf` as written. It can be built exactly when the version is a varint, the host's character count fits a varint and the port fits `H` |
| Pinger.Handshake | mcstatus/pinger.py:19-27 | `handshake` appends exactly the framed packet, and writes nothing when it cannot be built |
| Pinger.HandshakeRoundTrip | mcstatus/pinger.py:19-27 | the handshake is exactly the framed packet. For an ASCII host a server reads it back as packet 0 with the version, host, port and intent 1 |
| Pinger.ReadHandshakePacket | mcstatus/pinger.py:20-25 | for an ASCII host the packet's fields read back in order |
| Pinger.HandshakePacketShape | mcstatus/pinger.py:20-25 | the packet is varint 0, the version, the host's character-count frame, the port and varint 1 |
| Pinger.HandshakeAccentedHost | mcstatus/pinger.py:19-25 | the handshake for host "é" is built, but a server reading it back raises UnicodeDecodeError at the host |
| Pinger.ReadStatus | mcstatus/pinger.py:29-44 | `read_status` writes exactly 01 00, and any status it returns is one the validator accepts |
| Pinger.StatusRequestFrame | mcstatus/pinger.py:30-32 | 01 00 is the frame of the packet holding varint 0 |
| Pinger.StatusReplyRoundTrip | mcstatus/pinger.py:34-44 | packet 0 holding the text of a valid document gives that document. An invalid one gives the validator's error |
| Pinger.StatusReply | mcstatus/pinger.py:34-44 | a failed id read is passed on, and an id other than 0 is the invalid-packet IOError. Text that is not UTF-8 is the invalid-JSON IOError. A success is the validated document of the decoded JSON, and a validator's ValueError becomes the invalid-status IOError carrying its reason |
| Pinger.StatusReplyWrongId | mcstatus/pinger.py:35-36 | any packet id other than 0 is an invalid-status IOError |
| Pinger.ReadStatusRoundTrip | mcstatus/pinger.py:29-34 | `read_status` judges exactly the one buffer queued and consumes only it |
| Pinger.PingFrame | mcstatus/pinger.py:47-51 | the ping request is 09 01 and eight bytes that unpack to the token. A token outside the signed 64-bit range is a struct.error |
| Pinger.PingReply | mcstatus/pinger.py:53-65 | a pong is accepted only with id 1 and the token echoed, and returns the measured latency |
| Pinger.PongEcho | mcstatus/pinger.py:55-65 | a pong with id 1 and the token echoed returns the latency |
| Pinger.PingShortFrame | mcstatus/pinger.py:53-65 | a reply whose length says 20 but which holds only the nine bytes of id and token still passes `test_ping` (see Left out) |
| Pinger.TestPing | mcstatus/pinger.py:46-65 | an unpackable token writes nothing. Otherwise the request is written, and a success returns the latency |
| Pinger.PingFrameBody | mcstatus/pinger.py:47-51 | the ping frame is the buffer of varint 1 and the packed token |
| Pinger.PingFrameBytes | mcstatus/pinger.py:47-51 | a ping request is 09 01 followed by the token's eight bytes |
| Pinger.TestPingReads | mcstatus/pinger.py:51-53 | `test_ping` writes its request and judges exactly the one buffer queued |
| Pinger.PingEcho | mcstatus/pinger.py:46-65 | a server that echoes the request makes `test_ping` succeed, consuming exactly the echo |
| Pinger.PingMangled | mcstatus/pinger.py:57-61 | an echo with any other token is a mangled-ping error naming both tokens |
| Pinger.PingOtherEcho | mcstatus/pinger.py:53-61 | echoing another pinger's request fails with both tokens |
| Pinger.PingReplyWrongId | mcstatus/pinger.py:55-56 | any pong id other than 1 is an invalid-ping IOError |
| PingerVectors.HandshakeVector | mcstatus/tests/test_pinger.py:12-15 | the handshake to localhost:25565 for protocol 44 is 0F 00 2C 09 "localhost" 63 DD 01 |
| PingerVectors.LocalhostHandshake | mcstatus/pinger.py:19-27 | for every one-byte protocol version, the localhost handshake is 0F followed by its packet |
| PingerVectors.PingVector | mcstatus/tests/test_pinger.py:53-58 | token 14515484 is sent as 09 01 00 00 00 00 00 DD 7D 1C |
| PingerVectors.StatusWrongIdVector | mcstatus/tests/test_pinger.py:47-51 | the reply 01 05 is rejected as an invalid status packet |
| PingerVectors.StatusInvalidJsonVector | mcstatus/tests/test_pinger.py:32-35 | the reply 03 00 01 7B carries "{", which is invalid JSON |
| PingerVectors.PingWrongIdVector | mcstatus/tests/test_pinger.py:60-65 | the reply 01 1F is rejected as an invalid ping packet |
| PingerVectors.PingWrongTokenVector | mcstatus/tests/test_pinger.py:67-72 | the echo of token 14515484 to a pinger holding 12345 is a mangled ping |
| Bedrock.RequestStatusLayout | mcstatus/bedrock_status.py:8 | the request is 25 bytes: id 01, a zero time stamp, then the RakNet magic and client GUID |
| Bedrock.NewStatus | mcstatus/bedrock_status.py:10-13 | the port defaults to 19132 and the timeout to 3 |
| Bedrock.Slice | mcstatus/bedrock_status.py:17-19 | Python slicing clamps both ends to the length |
| Bedrock.ParseResponse | mcstatus/bedrock_status.py:16-37 | fewer than 35 bytes is a struct.error, and every failure is a struct, decode or index error. A success keeps the latency, holds no ';', and has map and game mode both or neither |
| Bedrock.ParseStages | mcstatus/bedrock_status.py:17-19 | once the length and the text are read, the response is built from the text split at ';' |
| Bedrock.DecodeText | mcstatus/bedrock_status.py:19 | `decode()` succeeds exactly on valid UTF-8 |
| Bedrock.FromFields | mcstatus/bedrock_status.py:21-37 | six fields are required. Brand, motd, protocol and the counts come from fixed indices, and map and game mode are present exactly when there are nine |
| Bedrock.ReadStatus | mcstatus/bedrock_status.py:39-48 | the request datagram is sent, and the reply is parsed after `recvfrom` cuts it to 2048 bytes |
| Bedrock.UnconnectedPong | mcstatus/bedrock_status.py:17-19 | a pong can carry the fields exactly when their text is shorter than 65536 bytes. It is 35 bytes longer than that text |
| Bedrock.PongBytes | mcstatus/bedrock_status.py:17-19 | the length field sits at offset 33 and the text right after it |
| Bedrock.ParseRoundTrip | mcstatus/bedrock_status.py:16-37 | a pong built from six or more ';'-free fields parses to exactly those fields |
| Bedrock.FewFieldsIndexError | mcstatus/bedrock_status.py:28-37 | fewer than six fields is an IndexError |
| Bedrock.NotUtf8 | mcstatus/bedrock_status.py:19 | a string that is not UTF-8 is a UnicodeDecodeError |
| Bedrock.FrameSlices | mcstatus/bedrock_status.py:17-19 | the two slices pick out the length field and the text |
| BedrockVectors.SampleVector | mcstatus/tests/test_bedrock_status.py:4-16 | the sample pong parses to brand MCPE, protocol "422", 1 of 69 players, map "Default" and game mode "1" |
| Utils.RetryFrom | mcstatus/utils.py:37-43 | the loop makes at most n attempts and stops early only on a result it does not retry. With no attempts left it raises the last caught exception, or an unbound error when there was none |
| Utils.RetryFromTrace | mcstatus/utils.py:37-43 | the result is the last attempt's outcome from the state the earlier attempts left, and every earlier attempt was retryable |
| Utils.LoopIsRetry | mcstatus/utils.py:37-43 | any loop that takes `retry`'s step everywhere is `retry`'s loop |
| Utils.Retry | mcstatus/utils.py:9-49 | `tries < 1` makes no call and raises unbound. Otherwise there are 1..tries calls, ending early only on a success or an uncaught exception |
| Utils.RetryTrace | mcstatus/utils.py:37-43 | a retried call ends with its last attempt's outcome, and all earlier attempts raised caught exceptions |
| Utils.EffectiveTries | mcstatus/utils.py:35 | a `tries=` keyword at the call overrides the decorator's |
| Utils.RetryExhausted | mcstatus/utils.py:37-43 | when every attempt is caught, all tries are made and the last exception is raised |
| Utils.RetryStopsAt | mcstatus/utils.py:37-41 | the first attempt that succeeds or raises an uncaught exception ends the call with that outcome |
| Utils.RetryLoop | mcstatus/utils.py:35-43 | the imperative loop computes the same result, state and call count as the model |
| Utils.DeprecationMessage | mcstatus/utils.py:55-63 | the warning is "'name' is deprecated and will be removed" followed by the optional parts |
| Utils.Ending | mcstatus/utils.py:57-63 | " in V" comes first when a version is given, then the advice |
| Utils.Advice | mcstatus/utils.py:59-63 | ", use 'R' instead" comes when a replacement is given, then ".", then " (msg)" when a message is given |
| Utils.CallDeprecated | mcstatus/utils.py:66-68 | the decorated call returns the function's own result and issues that warning |
| UtilsVectors.SucceedsOnSecondTry | mcstatus/tests/test_retry_decorator.py:5-16 | from x = -1 with two tries, the first call divides by zero and the second returns 5 |
| UtilsVectors.FailsAfterTwoTries | mcstatus/tests/test_retry_decorator.py:19-29 | two tries of an always-failing function raise its RuntimeError |
| UtilsVectors.UncaughtStopsAtOnce | mcstatus/utils.py:37-41 | an exception outside the caught classes ends the call after one attempt |
| UtilsVectors.FullWarning | mcstatus/utils.py:55-63 | the warning with a replacement, a version and a message in full |
| UtilsVectors.PlainWarning | mcstatus/utils.py:55-63 | with nothing but the name, the warning ends at the full stop |
| Server.AsInt | mcstatus/server.py:28 | `isinstance(port, int)` holds for ints and bools, a bool counting as 0 or 1 |
| Server.EnsureValid | mcstatus/server.py:25-31 | validation passes exactly for a str host and an int port in 0..65535. A non-str host or non-int port is a TypeError; otherwise the port is out of range |
| Server.NewJavaServer | mcstatus/server.py:44-48 | the port defaults to 25565 and the timeout to 3. Construction succeeds exactly when validation does, keeping the validated host and port |
| Server.NewBedrockServer | mcstatus/server.py:246-250 | as above, with the default port 19132 |
| Server.Lookup | mcstatus/server.py:87-111 | a port in the address is used without DNS. Otherwise the SRV target without trailing dots and its port are used. NXDOMAIN falls back to 25565, and other resolver errors propagate |
| Server.LookupIgnoresDns | mcstatus/server.py:97-99 | an address with a port does not depend on DNS |
| Server.BedrockLookup | mcstatus/server.py:252-264 | the Bedrock lookup uses the port given, or else 19132 |
| Server.QueryAddress | mcstatus/server.py:194-200 | the A record without trailing dots is used, NXDOMAIN falls back to the host, and other resolver errors propagate |
| Server.PingerFor | mcstatus/server.py:126 | each attempt's pinger has the server's host and port and the given version. Its token is the one given, or else that attempt's random draw |
| Server.HandshakeStep | mcstatus/server.py:127 | a handshake step only appends, and succeeds exactly when the handshake can be built |
| Server.PingStep | mcstatus/server.py:128 | the ping step is `test_ping` and only appends |
| Server.PingAttempt | mcstatus/server.py:124-128 | an attempt counts itself and only appends to the shared connection. A success is that attempt's latency |
| Server.Attempts | mcstatus/utils.py:37 | `range(tries)` has tries elements, or none below 1 |
| Server.PingFrom | mcstatus/server.py:121-128 | the ping loop makes at most n attempts on the one connection, stopping early only on success, and nothing written is taken back |
| Server.Ping | mcstatus/server.py:113-128 | `ping` makes up to 3 attempts, or the given number, on one connection, and ends early only on success with that attempt's latency |
| Server.PingFromIsRetry | mcstatus/server.py:124-128 | the ping loop is `retry`'s loop around ping attempts |
| Server.PingIsRetry | mcstatus/server.py:113-128 | `ping` is `@retry(tries=3)` applied to the ping attempts sharing one connection |
| Server.StatusStep | mcstatus/server.py:164 | the status step only appends and returns a validated status without latency |
| Server.WithLatency | mcstatus/server.py:165 | the latency is filled in and the rest stays the validated status |
| Server.StatusAttempt | mcstatus/server.py:160-166 | an attempt counts itself and only appends. A success is a validated status carrying that attempt's latency |
| Server.StatusFrom | mcstatus/server.py:157-166 | the status loop makes at most n attempts on the one connection, stopping early only on success |
| Server.Status | mcstatus/server.py:149-166 | `status` makes up to 3 attempts, or the given number, on one connection, and ends early only on success with a validated status and its latency |
| Server.StatusFromIsRetry | mcstatus/server.py:160-166 | the status loop is `retry`'s loop around status attempts |
| Server.StatusIsRetry | mcstatus/server.py:149-166 | `status` is `@retry(tries=3)` applied to the status attempts sharing one connection |
| Server.ChallengeOpening | mcstatus/server.py:207-208 | a new querier's challenge request is the packet built with challenge 0 |
| Server.QueryExchangeOpens | mcstatus/server.py:205-209 | every query attempt opens with a fresh challenge request, so no attempt reuses another's challenge |
| Server.Query | mcstatus/server.py:188-209 | the address fallback is applied once, then 1..3 fresh exchanges, the outcome being the last one's. Other resolver errors propagate |
| Server.QueryAttempts | mcstatus/server.py:204-209 | an attempt is made only when every earlier one failed, and the result is the last attempt's exchange |
| Server.BedrockStatus | mcstatus/server.py:266-274 | the Bedrock `status` makes up to three fresh attempts, or the number `tries=` gives. It stops at the first success and ends with the last attempt's outcome, and every earlier attempt failed. Fewer than one try raises UnboundLocalError |
| Server.BedrockAttempt | mcstatus/server.py:274 | one attempt parses the datagram as cut to 2048 bytes |
| Server.ThreeTries | mcstatus/server.py:204 | three fresh attempts stop at the first success and otherwise end with the third's outcome |
| Server.ThreeTriesIsRetry | mcstatus/server.py:204 | those three tries are `retry(tries=3)` around self-counting attempts |
| Server.CountedRetry | mcstatus/utils.py:37-43 | `retry` over attempts that start afresh counts its calls. It ends with the last call's outcome, and every earlier call failed |
| Server.PingEchoed | mcstatus/server.py:113-128 | a server that echoes the request is answered by the first attempt, with its latency |
| Server.StatusAnswered | mcstatus/server.py:149-166 | a server that sends a valid document and echoes the ping is answered by the first status attempt |
| Server.StatusAttemptAnswered | mcstatus/server.py:160-166 | the first status attempt against that server writes the handshake, the request and the ping, and returns the document with its latency |
| Server.HandshakeWritten | mcstatus/server.py:127 | a handshake that can be built is appended in full, whatever the connection holds |
| Server.StatusRead | mcstatus/server.py:164 | the status read against a reply holding a valid document returns it |
| Server.PingAttemptSilent | mcstatus/server.py:124-128 | against a silent server a ping attempt fails |
| Server.PingFromSilent | mcstatus/server.py:124-128 | against a silent server every ping attempt is made and the call fails |
| Server.StatusAttemptSilent | mcstatus/server.py:160-166 | against a silent server a status attempt fails |
| Server.StatusFromSilent | mcstatus/server.py:160-166 | against a silent server every status attempt is made and the call fails |
| Server.QueryExchangeAnswered | mcstatus/server.py:205-209 | a server that sends a decimal challenge and then a full-stat reply gives the response from its pairs and names. The request carries that challenge |
| Server.ChallengeAnswered | mcstatus/server.py:208 | a fresh querier's handshake stores the challenge the server sends |
| Server.QueryExchangeSteps | mcstatus/server.py:205-209 | `query` opens a new UDP connection and querier, so a failed handshake ends the attempt with its error and only the challenge request written. A success had a successful handshake and is the full-stat read that follows it. When the request is built, the bytes written are the challenge request followed by it |

| Server.QuerySilent | mcstatus/server.py:188-209 | a server that never answers the challenge makes `query` try three times and fail |
| ServerVectors.TestHandshake | mcstatus/tests/test_server.py:83 | the handshake for protocol 47 to localhost:25565 is 0F 00 2F 09 "localhost" 63 DD 01 |
| ServerVectors.PingVector | mcstatus/tests/test_server.py:76-85 | `ping` against an echoing server writes the handshake and the ping of token 29704774, leaves nothing queued and returns the first latency |
| ServerVectors.StatusVector | mcstatus/tests/test_server.py:96-114 | `status` writes handshake, 01 00 and the ping, leaves nothing queued and returns the document with the first latency |
| ServerVectors.PingRetryVector | mcstatus/tests/test_server.py:87-94 | when every attempt fails, `ping` makes three and fails |
| ServerVectors.StatusRetryVector | mcstatus/tests/test_server.py:116-123 | when every attempt fails, `status` makes three and fails |
| ServerVectors.QueryRetryVector | mcstatus/tests/test_server.py:154-161 | when every attempt fails, `query` makes three and fails |
| ServerVectors.ChallengePacked | mcstatus/tests/test_server.py:140 | 570350778 as a signed int is 21 FE DC BA |
| ServerVectors.FullStatRequestVector | mcstatus/tests/test_server.py:140 | the full-stat request after that challenge is FE FD 00, four zero bytes, 21 FE DC BA and four zero bytes |
| ServerVectors.QueryExchangeVector | mcstatus/tests/test_server.py:125-140 | one exchange writes both requests and returns the sample response |
| ServerVectors.QueryVector | mcstatus/tests/test_server.py:125-152 | `query` answers on the first attempt with the sample raw fields |
| ServerVectors.FirstQueryAnswered | mcstatus/server.py:204-209 | a query whose first exchange succeeds makes no other |
| LegacyQuery.NewQuery | minecraft_query.py:25-31 | the id is packed at once, a struct.error when it does not fit, and there is no challenge yet |
| LegacyQuery.SendPacket | minecraft_query.py:36-46 | the datagram is FE FD, the type, the packed id and the packed challenge, then the data |
| LegacyQuery.ReadPacket | minecraft_query.py:48-52 | the reply is cut to 1460 bytes. An empty reply is an IndexError and fewer than five bytes a struct.error; otherwise the type, signed id and payload are returned |
| LegacyQuery.ReadPacketRoundTrip | minecraft_query.py:48-52 | a reply laid out as expected is read back field by field |
| LegacyQuery.SendReadRoundTrip | minecraft_query.py:39-52 | what a query sends reads back as its type, its id, and its challenge followed by the data |
| LegacyQuery.Handshake | minecraft_query.py:69-70 | read failures propagate and leave the object unchanged. The challenge is Python 2 `int()` of the payload without its last byte. A non-integer is a ValueError. A value outside 32 bits is a struct.error that leaves the object holding the challenge beside its old packing. On success the challenge and its packing agree |
| LegacyQuery.HandshakeRoundTrip | minecraft_query.py:69-70 | a reply holding the decimal challenge n, with any last byte, sets the challenge to n and packs it |
| LegacyQuery.OversizedChallenge | minecraft_query.py:69-70 | a reply whose challenge lies beyond 32 bits fails with struct.error and leaves the object holding that challenge with its old packing |
| LegacyQuery.StaleChallenge | minecraft_query.py:69-79 | after that failure the next request skips the handshake and sends one packet, which carries challenge 0 |
| LegacyQuery.HostPortAsWritten | minecraft_query.py:88 | as written, the port is read as a signed 16-bit value |
| LegacyQuery.HostPort | minecraft_query.py:88 | the corrected port is read as an unsigned 16-bit value |
| LegacyQuery.HostPortRoundTrip | minecraft_query.py:88 | every port survives the unsigned reading |
| LegacyQuery.HostPortAsWrittenWraps | minecraft_query.py:88 | the signed reading agrees below 32768 and is off by 65536 above it |
| LegacyQuery.HostPortAsWrittenCounterexample | minecraft_query.py:88 | port 40000 is reported as -25536 as written and as 40000 corrected |
| LegacyQuery.ReportedPort | minecraft_query.py:88 | the port reported for a server lies in -32768..32767 and equals the real port modulo 65536 |
| LegacyQuery.ParseBasicStat | minecraft_query.py:84-98 | anything but six NUL-split parts is an unpacking error, and a last part under two bytes is a struct.error. A success has a port in -32768..32767, read signed as written |
| LegacyQuery.BasicStatRoundTrip | minecraft_query.py:84-98 | `get_status` reads back every field of the payload a server sends. The counts come back as integers, and the port as the signed reading reports it |
| LegacyQuery.StatusOfFields | minecraft_query.py:86-96 | the six parts give motd, game type, map, counts, the signed port and host name |
| LegacyQuery.StatusOf | minecraft_query.py:86-96 | the six parts give motd, game type and map as they are, character for byte, counts converted by `int` where possible, the port as the signed `'<h'` reading of the first two bytes of the last part, and the host name as the rest minus its final byte, character for byte |
| LegacyQuery.Numeric | minecraft_query.py:92-96 | a count becomes a number exactly when `int` accepts it, and is otherwise kept as the text |
| LegacyQuery.NumericDecimal | minecraft_query.py:92-96 | decimal text converts to its integer |
| LegacyQuery.StripEach | minecraft_query.py:154 | each plugin is stripped of Python 2 whitespace |
| LegacyQuery.ParsePlugins | minecraft_query.py:147-156 | without a colon, the software is the stripped text and there are no plugins. The software is colon-free and trimmed, and each plugin is ';'-free and trimmed |
| LegacyQuery.PluginsRoundTrip | minecraft_query.py:147-156 | the software and plugins are recovered from the text a server sends |
| LegacyQuery.Pairs | minecraft_query.py:126 | `zip(items[::2], items[1::2])` pairs consecutive items and drops a trailing odd item |
| LegacyQuery.PairsFlatten | minecraft_query.py:125-126 | pairing the flattened pairs, with or without one stray item, gives the pairs back |
| LegacyQuery.PlayerNames | minecraft_query.py:128-133 | no name holds a NUL, and an empty section has no players |
| LegacyQuery.PlayersRoundTrip | minecraft_query.py:128-133 | the names a server sends are read back, except that a lone empty name reads as none |
| LegacyQuery.ConvertCounts | minecraft_query.py:135-139 | the count conversion changes no key |
| LegacyQuery.Converted | minecraft_query.py:125-139 | the players are stored, the three counts are integers where they parse, and every other value is passed on |
| LegacyQuery.Assemble | minecraft_query.py:128-143 | a missing "plugins" is a KeyError. Otherwise the keys are those sent plus players, raw_plugins and software |
| LegacyQuery.AssembleComputed | minecraft_query.py:141-143 | raw_plugins is the text sent, and software and plugins are its parse |
| LegacyQuery.AssemblePassed | minecraft_query.py:135-139 | every other key keeps what was sent, converted to an integer when it is a count |
| LegacyQuery.ParseRules | minecraft_query.py:120-145 | unless the marker splits the text in two, unpacking fails. Otherwise the only error is a missing "plugins", and all computed keys are present |
| LegacyQuery.RulesReply | minecraft_query.py:118-145 | a payload of 11 bytes or fewer is the unpacking error of an empty text. Otherwise the rules are parsed from the text after the 11 bytes of padding |
| LegacyQuery.RulesRoundTrip | minecraft_query.py:120-145 | `get_rules` reads back what a server sends: its pairs with the first key renamed, and its names |
| LegacyQuery.ParseRulesSections | minecraft_query.py:120-133 | after the split, the parse is the pairs of the renamed section and the names of the other |
| LegacyQuery.SectionsSplit | minecraft_query.py:120 | the marker first occurs where the server put it |
| LegacyQuery.RenameFirst | minecraft_query.py:122-123 | renaming the start of the section renames only the first key |
| LegacyQuery.RenameItems | minecraft_query.py:122-123 | renaming the section text is renaming its first pair |
| LegacyQuery.ItemsRoundTrip | minecraft_query.py:125-126 | splitting the key/value section at NULs and pairing up gives the pairs |
| LegacyQuery.EnsureChallenge | minecraft_query.py:73-74 | with a challenge set nothing happens. Otherwise the challenge request is sent, and no reply is a timeout. The object is left as the first reply's handshake leaves it, and the call succeeds exactly when that handshake does |
| LegacyQuery.Ask | minecraft_query.py:72-79 | once the challenge is in place the query packet with the data goes out next. On success it carries the challenge now held, and an existing challenge is reused |
| LegacyQuery.GetStatus | minecraft_query.py:72-98 | `get_status` sends what the query exchange sends. It passes on the exchange's error and otherwise parses its payload as basic stat |
| LegacyQuery.GetRules | minecraft_query.py:100-145 | `get_rules` sends the query packet with the packed id as data. It passes on the exchange's error and otherwise parses its payload as full stat |
| LegacyQuery.AskAnswered | minecraft_query.py:72-79 | when the first reply handshakes and the second reads, a fresh query sends two packets, the second carrying the challenge just set, and returns the second reply's payload |
| LegacyQuery.ChallengeAnswered | minecraft_query.py:73-74 | a fresh query sends one challenge request and keeps the object the handshake leaves. The handshake's error is passed on, and on success the remaining replies are kept |
| LegacyQuery.GetStatusRoundTrip | minecraft_query.py:72-98 | a fresh query gets the basic status a server sends, with the port as the signed reading reports it, and stores the challenge |
| LegacyQuery.RulesReplyText | minecraft_query.py:118 | 11 bytes of padding are dropped before the text is parsed |
| LegacyQuery.GetRulesRoundTrip | minecraft_query.py:100-145 | a query holding a challenge sends one packet and gets the rules the server sends |

## Left out

- Sockets and asyncio are not modelled. This covers `TCPSocketConnection`, `UDPSocketConnection`, their async variants, `AsyncServerPinger`, `AsyncServerQuerier` and the `async_*` methods of the server classes. The model works on the in-memory `Connection` byte queue, whose `read` returns whatever is queued. The socket `read`s differ, as the next line says. The async paths frame bytes the same way.
- Protocol.Read: on a TCP socket `read(n)` waits for n bytes (connection.py:199-205). It raises IOError when the server closes first, or times out. The model returns the bytes queued, so the Java exchanges accept a truncated final frame (`Pinger.PingShortFrame`). A negative length differs too: the socket's loop does not run and `read(-1)` returns nothing, so `read_buffer` hands back an empty buffer and the first `read_varint` on it fails (connection.py:49-52, 123-127). The model slices as the in-memory class does and keeps all but the last |n| bytes (`ProtocolVectors.NegativeBufferLength`), so a varint length of -1 (FF FF FF FF 0F) is accepted where a socket would fail.
- Timeouts are not modelled. A silent server is an empty inbound queue in the Java code, and an absent reply (`Timeout`) in the legacy script.
- DNS resolution is not modelled. Each SRV or A lookup result is a parameter (`Resolution`). `parse_address` is left out, and `Lookup` takes the host and the optional port already split.
- `json.loads` is the parameter `parseJson`. The model states what the validator does with each document it returns.
- Latency is not modelled. It is a parameter, since the clock (`datetime.now`, `perf_counter`) is not.
- The random ping token is not modelled. `random.randint` is a parameter, a draw per attempt that must lie in its range.
- Protocol.ReadAscii: with no 00 queued the Python loop never ends. The model returns `MissingTerminator` instead.
- Utils.Retry: `tries < 1` makes Python raise UnboundLocalError. The model returns `Unbound`.
- Utils.CallDeprecated: `warnings.warn` is not modelled. The model returns the warning text beside the call's result.
- The `exceptions` filter of `retry` is a predicate on the modelled errors. The server classes keep the default, every exception.
- LegacyQuery.Handshake: the retry of a failed read (minecraft_query.py:57-67) is not modelled. A failed read is returned as the error.
- LegacyQuery.GetStatus: the re-handshake after a failed read (lines 80-82) is not modelled. A failed read is returned as the error.
- LegacyQuery.GetRules: the retry counter (lines 104-114) is not modelled. A failed read is returned as the error.
- `HUMAN_READABLE_NAMES` and the socket set-up of `minecraft_query.py` are not modelled. No modelled operation reads them.
- The script's Python 2 strings are byte strings. The model treats them as Latin-1 text, and `map` as a list.
- Server.Query: the unit test feeds the UDP connection's `remaining()` from a mock. The model takes the two datagrams of each attempt as given.
- ServerVectors.PingRetryVector: the unit tests make every attempt fail by patching the pinger or querier class. The model uses a server that sends nothing, which fails every attempt the same way.
- The command-line tools (`cli.py`, `mcstatus/scripts/mcstatus.py`), `address_tools.py` and `setup.py` are not part of this model.
- Some unit tests are written against other versions of the library and do not match this code, so they are not restated: test_session_id.py, test_async_querier.py, tests/protocol/test_pinger.py, test_connection.py:52-55 and test_server.py:163-188.

## Findings

| source | as written | input that shows it | evidently intended | confidence | as-written member | corrected member |
|---|---|---|---|---|---|---|
| mcstatus/protocol/connection.py:73-75 | `write_utf` prefixes `len(value)`, the character count | "é": written as 01 C3 A9, so `read_utf` takes one byte and raises UnicodeDecodeError | prefix the UTF-8 byte count, which `read_utf` consumes | high, not executed | Protocol.UtfAsWrittenCounterexample | Protocol.UtfRoundTrip |
| minecraft_query.py:88 | `struct.unpack('<h', …)` reads the host port as a signed short | a server on port 40000 is reported on port -25536 | read it unsigned (`'<H'`), so every port 0..65535 is itself | high, not executed | LegacyQuery.HostPortAsWrittenCounterexample | LegacyQuery.HostPortRoundTrip |
