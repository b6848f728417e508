/**
  The binary frame codec: header, body and checksums. CRC32 and zlib stay abstract.
 */
module Codec {
  import opened Values

  type Word32 = w: nat | w < 0x1_0000_0000

  /** The library routines; decompression may fail on bytes that compression did not produce. */
  datatype Library = Library(crc: Bytes -> Word32, compress: Bytes -> Bytes, decompress: Bytes -> Option<Bytes>)

  ghost predicate Faithful(lib: Library) {
    forall x :: lib.decompress(lib.compress(x)) == Some(x)
  }

  const MAGIC: Bytes := [0x41, 0x55, 0x52, 0x41]
  const PROTOCOL_VERSION: nat := 1
  const HEADER_SIZE: nat := 32
  const LAST_OPCODE: nat := 20

  datatype Frame = Frame(opcode: nat, payload: Bytes, requestId: nat, transactionId: nat, flags: nat, version: nat)

  datatype EncodeError = TooLarge | PackError

  datatype ProtocolError =
    | BadMagic | UnsupportedVersion | HeaderChecksum | UnknownOpcode | PayloadTooLarge
    | UnknownCompression | PayloadChecksum | BadCompression

  datatype Decoded = Whole(frame: Frame, consumed: nat) | Incomplete | Malformed(error: ProtocolError)

  // ----- big-endian integers -----

  function Pow256(w: nat): nat {
    if w == 0 then 1 else 256 * Pow256(w - 1)
  }

  function Pack(n: nat, w: nat): (r: Bytes)
    ensures |r| == w
  {
    if w == 0 then [] else Pack(n / 256, w - 1) + [n % 256]
  }

  function Unpack(bs: Bytes): nat {
    if bs == [] then 0 else Unpack(bs[..|bs| - 1]) * 256 + bs[|bs| - 1]
  }

  lemma {:induction false} UnpackPack(n: nat, w: nat)
    requires n < Pow256(w)
    ensures Unpack(Pack(n, w)) == n
  {
    if w > 0 {
      UnpackPack(n / 256, w - 1);
      assert Pack(n, w)[..w - 1] == Pack(n / 256, w - 1);
    }
  }

  // ----- flags: bit 0 is COMPRESSED, bit 1 is PAYLOAD_CHECKSUM -----

  predicate Checksummed(flags: nat) {
    flags / 2 % 2 == 1
  }

  function WithCompressed(flags: nat): nat {
    if flags % 2 == 1 then flags else flags + 1
  }

  function WithoutCompressed(flags: nat): nat {
    flags - flags % 2
  }

  function WithChecksum(flags: nat): nat {
    if Checksummed(flags) then flags else flags + 2
  }

  // ----- encoding -----

  function Fits(frame: Frame, flags: nat): bool {
    && frame.version < 256 && frame.opcode < 256 && flags < 256
    && frame.transactionId < Pow256(8) && frame.requestId < Pow256(8)
  }

  function HeaderFields(version: Byte, opcode: Byte, flags: Byte, compression: Byte, length: nat, tx: nat, request: nat): (r: Bytes)
    ensures |r| == 28
  {
    MAGIC + [version, opcode, flags, compression] + Pack(length, 4) + Pack(tx, 8) + Pack(request, 8)
  }

  function EncodedFlags(frame: Frame, compressed: bool, checksum: bool): nat {
    var flags := if compressed then WithCompressed(frame.flags) else frame.flags;
    if checksum then WithChecksum(flags) else flags
  }

  /** A body is compressed on demand unless it is empty; the limit applies to what is sent. */
  function Encode(lib: Library, frame: Frame, maxPayload: nat, compress: bool, checksum: bool): Result<Bytes, EncodeError> {
    var compressed := compress && frame.payload != [];
    var body := if compressed then lib.compress(frame.payload) else frame.payload;
    var flags := EncodedFlags(frame, compressed, checksum);
    if |body| > maxPayload then Err(TooLarge)
    else if !Fits(frame, flags) || |body| >= Pow256(4) then Err(PackError)
    else
      var fields := HeaderFields(frame.version, frame.opcode, flags, if compressed then 1 else 0,
                                 |body|, frame.transactionId, frame.requestId);
      Ok(fields + Pack(lib.crc(fields), 4) + body + if Checksummed(flags) then Pack(lib.crc(body), 4) else [])
  }

  // ----- decoding -----

  function BodyLength(header: Bytes): nat
    requires |header| == HEADER_SIZE
  {
    Unpack(header[8..12])
  }

  function HeaderFault(lib: Library, header: Bytes, maxPayload: nat): Option<ProtocolError>
    requires |header| == HEADER_SIZE
  {
    if header[..4] != MAGIC then Some(BadMagic)
    else if header[4] != PROTOCOL_VERSION then Some(UnsupportedVersion)
    else if lib.crc(header[..28]) != Unpack(header[28..32]) then Some(HeaderChecksum)
    else if !(1 <= header[5] <= LAST_OPCODE) then Some(UnknownOpcode)
    else if BodyLength(header) > maxPayload then Some(PayloadTooLarge)
    else if header[7] > 1 then Some(UnknownCompression)
    else None
  }

  function FrameSize(header: Bytes): (n: nat)
    requires |header| == HEADER_SIZE
    ensures n >= HEADER_SIZE
  {
    HEADER_SIZE + BodyLength(header) + if Checksummed(header[6]) then 4 else 0
  }

  function DecodeWhole(lib: Library, data: Bytes): Decoded
    requires |data| >= HEADER_SIZE && |data| == FrameSize(data[..HEADER_SIZE])
  {
    var header := data[..HEADER_SIZE];
    var end := HEADER_SIZE + BodyLength(header);
    var body := data[HEADER_SIZE..end];
    if Checksummed(header[6]) && lib.crc(body) != Unpack(data[end..]) then Malformed(PayloadChecksum)
    else
      var payload := if header[7] == 1 then lib.decompress(body) else Some(body);
      if payload.None? then Malformed(BadCompression)
      else Whole(Frame(header[5], payload.value, Unpack(header[20..28]), Unpack(header[12..20]),
                       WithoutCompressed(header[6]), header[4]), |data|)
  }

  /** One frame from the front of the data. */
  function TryDecode(lib: Library, data: Bytes, maxPayload: nat): (r: Decoded)
    ensures r.Whole? ==> HEADER_SIZE <= r.consumed <= |data|
  {
    if |data| < HEADER_SIZE then Incomplete
    else
      var header := data[..HEADER_SIZE];
      var fault := HeaderFault(lib, header, maxPayload);
      if fault.Some? then Malformed(fault.value)
      else if |data| < FrameSize(header) then Incomplete
      else
        assert data[..FrameSize(header)][..HEADER_SIZE] == header;
        DecodeWhole(lib, data[..FrameSize(header)])
  }

  // ----- decoding looks no further than one frame -----

  /** What has been decided on a prefix stays decided: later bytes change nothing. */
  lemma DecisionsAreFinal(lib: Library, data: Bytes, more: Bytes, maxPayload: nat)
    requires !TryDecode(lib, data, maxPayload).Incomplete?
    ensures TryDecode(lib, data + more, maxPayload) == TryDecode(lib, data, maxPayload)
  {
    assert (data + more)[..HEADER_SIZE] == data[..HEADER_SIZE];
    var header := data[..HEADER_SIZE];
    if HeaderFault(lib, header, maxPayload).None? {
      assert (data + more)[..FrameSize(header)] == data[..FrameSize(header)];
    }
  }

  // ----- round trip -----

  lemma FieldsAt(version: Byte, opcode: Byte, flags: Byte, compression: Byte, length: nat, tx: nat, request: nat, crc: Bytes)
    requires |crc| == 4
    ensures
      var fields := HeaderFields(version, opcode, flags, compression, length, tx, request);
      var header := fields + crc;
      && header[..28] == fields && header[28..32] == crc
      && header[..4] == MAGIC && header[4] == version && header[5] == opcode && header[6] == flags && header[7] == compression
      && header[8..12] == Pack(length, 4) && header[12..20] == Pack(tx, 8) && header[20..28] == Pack(request, 8)
  {
  }

  /** The frame a receiver gets: the checksum flag as sent, the compression flag cleared. */
  function Received(frame: Frame, checksum: bool): Frame {
    frame.(flags := WithoutCompressed(if checksum then WithChecksum(frame.flags) else frame.flags))
  }

  lemma CompressedOnly(f: nat)
    ensures WithoutCompressed(WithCompressed(f)) == WithoutCompressed(f)
    ensures Checksummed(WithCompressed(f)) == Checksummed(f)
  {
    if f % 2 == 0 {
      assert (f + 1) / 2 == f / 2;
    }
  }

  lemma ChecksumOnly(f: nat)
    ensures Checksummed(WithChecksum(f))
    ensures WithChecksum(WithCompressed(f)) == WithCompressed(WithChecksum(f))
  {
    assert (f + 2) / 2 == f / 2 + 1 && (f + 2) % 2 == f % 2;
    CompressedOnly(f);
  }

  lemma CompressionFlagIsCleared(frame: Frame, compressed: bool, checksum: bool)
    ensures WithoutCompressed(EncodedFlags(frame, compressed, checksum)) == Received(frame, checksum).flags
    ensures Checksummed(EncodedFlags(frame, compressed, checksum)) == (checksum || Checksummed(frame.flags))
  {
    hide Checksummed, WithCompressed, WithoutCompressed, WithChecksum;
    CompressedOnly(frame.flags);
    ChecksumOnly(frame.flags);
    CompressedOnly(WithChecksum(frame.flags));
  }

  lemma WireParts(fields: Bytes, crc: Bytes, body: Bytes, trailer: Bytes, more: Bytes)
    requires |fields| == 28 && |crc| == 4
    ensures
      var data := fields + crc + body + trailer;
      var end := HEADER_SIZE + |body|;
      && data[..HEADER_SIZE] == fields + crc && data[HEADER_SIZE..end] == body && data[end..] == trailer
      && (data + more)[..HEADER_SIZE] == fields + crc && (data + more)[..|data|] == data
  {
  }

  lemma Ranges()
    ensures Pow256(4) == 0x1_0000_0000 && Pow256(8) == 0x1_0000_0000_0000_0000
  {
    assert Pow256(4) == 256 * (256 * (256 * (256 * Pow256(0))));
    assert Pow256(8) == 256 * (256 * (256 * (256 * Pow256(4))));
  }

  /** Encoding then decoding gives the frame back, up to the two flags the codec owns, and consumes
      exactly what was encoded, whatever follows it; the one header field the encoder does not check
      is the version. */
  lemma DecodeAfterEncode(lib: Library, frame: Frame, sendLimit: nat, limit: nat, compress: bool, checksum: bool, more: Bytes)
    requires Faithful(lib) && 1 <= frame.opcode <= LAST_OPCODE && sendLimit <= limit
    requires Encode(lib, frame, sendLimit, compress, checksum).Ok?
    ensures
      var data := Encode(lib, frame, sendLimit, compress, checksum).value;
      TryDecode(lib, data + more, limit) ==
        if frame.version == PROTOCOL_VERSION then Whole(Received(frame, checksum), |data|) else Malformed(UnsupportedVersion)
  {
    var compressed := compress && frame.payload != [];
    var body := if compressed then lib.compress(frame.payload) else frame.payload;
    var flags := EncodedFlags(frame, compressed, checksum);
    var marker := if compressed then 1 else 0;
    var fields := HeaderFields(frame.version, frame.opcode, flags, marker, |body|, frame.transactionId, frame.requestId);
    var crc := Pack(lib.crc(fields), 4);
    var trailer := if Checksummed(flags) then Pack(lib.crc(body), 4) else [];
    Ranges();
    CompressionFlagIsCleared(frame, compressed, checksum);
    FieldsAt(frame.version, frame.opcode, flags, marker, |body|, frame.transactionId, frame.requestId, crc);
    UnpackPack(lib.crc(fields), 4);
    UnpackPack(|body|, 4);
    UnpackPack(frame.transactionId, 8);
    UnpackPack(frame.requestId, 8);
    UnpackPack(lib.crc(body), 4);
    WireParts(fields, crc, body, trailer, more);
  }

  /** No strict prefix of an encoded frame decodes to anything, nor is it refused. */
  lemma PrefixIsIncomplete(lib: Library, frame: Frame, sendLimit: nat, limit: nat, compress: bool, checksum: bool, n: nat)
    requires Faithful(lib) && 1 <= frame.opcode <= LAST_OPCODE && frame.version == PROTOCOL_VERSION && sendLimit <= limit
    requires Encode(lib, frame, sendLimit, compress, checksum).Ok?
    requires n < |Encode(lib, frame, sendLimit, compress, checksum).value|
    ensures TryDecode(lib, Encode(lib, frame, sendLimit, compress, checksum).value[..n], limit).Incomplete?
  {
    hide TryDecode, Encode;
    var data := Encode(lib, frame, sendLimit, compress, checksum).value;
    DecodeAfterEncode(lib, frame, sendLimit, limit, compress, checksum, []);
    assert data + [] == data && data[..n] + data[n..] == data;
    if !TryDecode(lib, data[..n], limit).Incomplete? {
      DecisionsAreFinal(lib, data[..n], data[n..], limit);
    }
  }

  // ----- the layout, byte by byte -----

  /** The big-endian number in four bytes. */
  function Four(data: Bytes, at: nat): nat
    requires at + 4 <= |data|
  {
    0x100_0000 * data[at] as int + 0x1_0000 * data[at + 1] as int + 0x100 * data[at + 2] as int + data[at + 3] as int
  }

  function Eight(data: Bytes, at: nat): nat
    requires at + 8 <= |data|
  {
    Four(data, at) * 0x1_0000_0000 + Four(data, at + 4)
  }

  lemma UnpackOne(bs: Bytes, b: Byte)
    ensures Unpack(bs + [b]) == Unpack(bs) * 256 + b
  {
    assert (bs + [b])[..|bs|] == bs;
  }

  lemma UnpackFour(bs: Bytes, a: Byte, b: Byte, c: Byte, d: Byte)
    ensures Unpack(bs + [a, b, c, d]) == Unpack(bs) * 0x1_0000_0000 + (0x100_0000 * a as int + 0x1_0000 * b as int + 0x100 * c as int + d as int)
  {
    UnpackOne(bs, a);
    UnpackOne(bs + [a], b);
    UnpackOne(bs + [a] + [b], c);
    UnpackOne(bs + [a] + [b] + [c], d);
    assert bs + [a] + [b] + [c] + [d] == bs + [a, b, c, d];
  }

  lemma UnpackIsFour(data: Bytes, at: nat)
    requires at + 4 <= |data|
    ensures Unpack(data[at..at + 4]) == Four(data, at)
  {
    UnpackFour([], data[at], data[at + 1], data[at + 2], data[at + 3]);
    assert [] + [data[at], data[at + 1], data[at + 2], data[at + 3]] == data[at..at + 4];
  }

  lemma UnpackIsEight(data: Bytes, at: nat)
    requires at + 8 <= |data|
    ensures Unpack(data[at..at + 8]) == Eight(data, at)
  {
    UnpackIsFour(data, at);
    UnpackFour(data[at..at + 4], data[at + 4], data[at + 5], data[at + 6], data[at + 7]);
    assert data[at..at + 4] + [data[at + 4], data[at + 5], data[at + 6], data[at + 7]] == data[at..at + 8];
  }

  /** Where the body ends, and where the frame does: bit 1 of the flags announces a trailer. */
  function BodyEnd(data: Bytes): nat
    requires |data| >= 32
  {
    32 + Four(data, 8)
  }

  function Trailed(data: Bytes): bool
    requires |data| >= 32
  {
    data[6] / 2 % 2 == 1
  }

  function FrameEnd(data: Bytes): nat
    requires |data| >= 32
  {
    BodyEnd(data) + if Trailed(data) then 4 else 0
  }

  /** What is wrong with the header, the first of these in this order. */
  ghost predicate HeaderRefused(lib: Library, data: Bytes, maxPayload: nat, error: ProtocolError)
    requires |data| >= 32
  {
    var magic := data[0] == 0x41 && data[1] == 0x55 && data[2] == 0x52 && data[3] == 0x41;
    var version := data[4] == 1;
    var checked := lib.crc(data[..28]) == Four(data, 28);
    var opcode := data[5] != 0 && data[5] <= 20;
    var short := Four(data, 8) <= maxPayload;
    match error
    case BadMagic => !magic
    case UnsupportedVersion => magic && !version
    case HeaderChecksum => magic && version && !checked
    case UnknownOpcode => magic && version && checked && !opcode
    case PayloadTooLarge => magic && version && checked && opcode && !short
    case UnknownCompression => magic && version && checked && opcode && short && data[7] != 0 && data[7] != 1
    case _ => false
  }

  ghost predicate HeaderGood(lib: Library, data: Bytes, maxPayload: nat)
    requires |data| >= 32
  {
    && data[0] == 0x41 && data[1] == 0x55 && data[2] == 0x52 && data[3] == 0x41 && data[4] == 1
    && lib.crc(data[..28]) == Four(data, 28) && 1 <= data[5] <= 20 && Four(data, 8) <= maxPayload && data[7] <= 1
  }

  lemma HeaderDecided(lib: Library, data: Bytes, maxPayload: nat)
    requires |data| >= 32
    ensures
      var fault := HeaderFault(lib, data[..32], maxPayload);
      && (fault.None? <==> HeaderGood(lib, data, maxPayload))
      && forall e :: fault == Some(e) <==> HeaderRefused(lib, data, maxPayload, e)
    ensures BodyLength(data[..32]) == Four(data, 8) && FrameSize(data[..32]) == FrameEnd(data)
  {
    hide Four, Unpack;
    var header := data[..32];
    UnpackIsFour(data, 8);
    UnpackIsFour(data, 28);
    assert header[8..12] == data[8..12] && header[28..32] == data[28..32] && header[..28] == data[..28] && header[..4] == data[..4];
    assert header[..4] == MAGIC <==> data[0] == 0x41 && data[1] == 0x55 && data[2] == 0x52 && data[3] == 0x41;
  }

  /** The payload of a whole frame, if the body passes its checksum and decompresses. */
  function PayloadIn(lib: Library, data: Bytes): Option<Bytes>
    requires |data| >= 32 && |data| >= FrameEnd(data)
  {
    var body := data[32..BodyEnd(data)];
    if data[7] == 1 then lib.decompress(body) else Some(body)
  }

  ghost predicate BodyGood(lib: Library, data: Bytes)
    requires |data| >= 32 && |data| >= FrameEnd(data)
  {
    Trailed(data) ==> lib.crc(data[32..BodyEnd(data)]) == Four(data, BodyEnd(data))
  }

  /** When there is no whole frame yet. */
  lemma IncompleteExactly(lib: Library, data: Bytes, maxPayload: nat)
    ensures TryDecode(lib, data, maxPayload).Incomplete? <==>
      |data| < 32 || (HeaderGood(lib, data, maxPayload) && |data| < FrameEnd(data))
  {
    hide HeaderFault, FrameSize, HeaderGood, FrameEnd;
    if |data| >= 32 {
      HeaderDecided(lib, data, maxPayload);
    }
  }

  lemma BodyDecided(lib: Library, data: Bytes)
    requires |data| >= 32 && |data| >= FrameEnd(data) && FrameSize(data[..32]) == FrameEnd(data)
    requires BodyLength(data[..32]) == Four(data, 8)
    ensures data[..FrameEnd(data)][..HEADER_SIZE] == data[..32]
    ensures DecodeWhole(lib, data[..FrameEnd(data)]) ==
      if !BodyGood(lib, data) then Malformed(PayloadChecksum)
      else if PayloadIn(lib, data).None? then Malformed(BadCompression)
      else Whole(Frame(data[5], PayloadIn(lib, data).value, Eight(data, 20), Eight(data, 12), data[6] - data[6] % 2, data[4]), FrameEnd(data))
  {
    hide Four, Eight, Unpack, BodyLength;
    var frame, end := data[..FrameEnd(data)], BodyEnd(data);
    var header := frame[..HEADER_SIZE];
    assert header == data[..32];
    assert frame[HEADER_SIZE..end] == data[32..end];
    UnpackIsEight(data, 12);
    UnpackIsEight(data, 20);
    assert header[12..20] == data[12..20] && header[20..28] == data[20..28];
    if Trailed(data) {
      UnpackIsFour(data, end);
      assert frame[end..] == data[end..end + 4];
    }
  }

  /** When a frame is delivered, and which: all header fields are good, the data is long enough, and the body
      passes its checksum, if it has one, and decompresses, if it is marked. */
  lemma WholeExactly(lib: Library, data: Bytes, maxPayload: nat)
    ensures TryDecode(lib, data, maxPayload).Whole? <==>
      && |data| >= 32 && HeaderGood(lib, data, maxPayload) && |data| >= FrameEnd(data)
      && BodyGood(lib, data) && PayloadIn(lib, data).Some?
    ensures TryDecode(lib, data, maxPayload).Whole? ==>
      TryDecode(lib, data, maxPayload) == Whole(
        Frame(data[5], PayloadIn(lib, data).value, Eight(data, 20), Eight(data, 12), data[6] - data[6] % 2, 1), FrameEnd(data))
  {
    hide HeaderFault, FrameSize, FrameEnd, BodyGood, PayloadIn, DecodeWhole, Eight, Four;
    if |data| >= 32 {
      HeaderDecided(lib, data, maxPayload);
      if |data| >= FrameEnd(data) {
        BodyDecided(lib, data);
      }
    }
  }

  /** When data is refused, and why. */
  lemma MalformedExactly(lib: Library, data: Bytes, maxPayload: nat, error: ProtocolError)
    ensures TryDecode(lib, data, maxPayload) == Malformed(error) <==>
      && |data| >= 32
      && (HeaderRefused(lib, data, maxPayload, error)
          || (HeaderGood(lib, data, maxPayload) && |data| >= FrameEnd(data)
              && if BodyGood(lib, data) then PayloadIn(lib, data).None? && error == BadCompression else error == PayloadChecksum))
  {
    hide HeaderFault, FrameSize, HeaderGood, HeaderRefused, FrameEnd, BodyGood, PayloadIn, DecodeWhole, Eight, Four;
    if |data| >= 32 {
      HeaderDecided(lib, data, maxPayload);
      if |data| >= FrameEnd(data) {
        BodyDecided(lib, data);
      }
    }
  }

  /** When a frame cannot be encoded, and why. */
  lemma EncodeFailsExactly(lib: Library, frame: Frame, maxPayload: nat, compress: bool, checksum: bool)
    ensures
      var r := Encode(lib, frame, maxPayload, compress, checksum);
      var body := if compress && frame.payload != [] then lib.compress(frame.payload) else frame.payload;
      && (r == Err(TooLarge) <==> |body| > maxPayload)
      && (r == Err(PackError) <==>
           |body| <= maxPayload && (|body| >= 0x1_0000_0000 || frame.version >= 256 || frame.opcode >= 256 || frame.flags >= 256
             || frame.transactionId >= 0x1_0000_0000_0000_0000 || frame.requestId >= 0x1_0000_0000_0000_0000))
  {
    Ranges();
    FlagsFit(frame, compress && frame.payload != [], checksum);
  }

  lemma FlagsFit(frame: Frame, compressed: bool, checksum: bool)
    ensures EncodedFlags(frame, compressed, checksum) < 256 <==> frame.flags < 256
    ensures
      var flags := EncodedFlags(frame, compressed, checksum);
      && (flags % 2 == 1 <==> compressed || frame.flags % 2 == 1)
      && (flags / 2 % 2 == 1 <==> checksum || frame.flags / 2 % 2 == 1) && flags / 4 == frame.flags / 4
  {
    FlagsBelow(frame.flags);
    FlagsBelow(WithCompressed(frame.flags));
  }

  lemma FlagsBelow(f: nat)
    ensures WithCompressed(f) % 2 == 1 && WithCompressed(f) / 2 == f / 2
    ensures WithChecksum(f) % 2 == f % 2 && WithChecksum(f) / 2 % 2 == 1 && WithChecksum(f) / 4 == f / 4
    ensures WithCompressed(f) < 256 <==> f < 256
    ensures WithChecksum(f) < 256 <==> f < 256
    ensures f / 2 / 2 == f / 4 && WithCompressed(f) / 4 == f / 4
  {
    var q, r := f / 4, f % 4;
    assert f == 4 * q + r;
    if f % 2 == 0 {
      assert (f + 1) / 2 == f / 2;
    }
    if !Checksummed(f) {
      assert r < 2;
    }
  }

  /** What is sent, byte by byte. */
  lemma EncodedBytes(lib: Library, frame: Frame, maxPayload: nat, compress: bool, checksum: bool)
    requires Encode(lib, frame, maxPayload, compress, checksum).Ok?
    ensures
      var data := Encode(lib, frame, maxPayload, compress, checksum).value;
      var compressed := compress && frame.payload != [];
      var body := if compressed then lib.compress(frame.payload) else frame.payload;
      && |data| >= 32 && HeaderIs(frame, compressed, checksum, |body|, data)
      && Four(data, 28) == lib.crc(data[..28])
      && |data| == FrameEnd(data) && data[32..BodyEnd(data)] == body
      && (Trailed(data) ==> Four(data, BodyEnd(data)) == lib.crc(body))
  {
    hide Four, Eight, Unpack, Pack, HeaderFields, Fits, EncodedFlags;
    var compressed := compress && frame.payload != [];
    var body := if compressed then lib.compress(frame.payload) else frame.payload;
    var flags := EncodedFlags(frame, compressed, checksum);
    EncodedHeader(lib, frame, maxPayload, compress, checksum);
    var fields := HeaderFields(frame.version, frame.opcode, flags, if compressed then 1 else 0, |body|, frame.transactionId, frame.requestId);
    var trailer := if Checksummed(flags) then Pack(lib.crc(body), 4) else [];
    var data := fields + Pack(lib.crc(fields), 4) + body + trailer;
    WireParts(fields, Pack(lib.crc(fields), 4), body, trailer, []);
    Ranges();
    UnpackPack(lib.crc(fields), 4);
    UnpackPack(lib.crc(body), 4);
    UnpackIsFour(data, 28);
    assert data[28..32] == Pack(lib.crc(fields), 4) && data[..28] == fields;
    if Checksummed(flags) {
      UnpackIsFour(data, 32 + |body|);
      assert data[32 + |body|..32 + |body| + 4] == trailer;
    }
  }

  /** The header fields but the checksum. */
  ghost predicate HeaderIs(frame: Frame, compressed: bool, checksum: bool, length: nat, data: Bytes)
    requires |data| >= 32
  {
    && data[0] == 0x41 && data[1] == 0x55 && data[2] == 0x52 && data[3] == 0x41
    && data[4] == frame.version && data[5] == frame.opcode && data[7] == (if compressed then 1 else 0)
    && (data[6] % 2 == 1 <==> compressed || frame.flags % 2 == 1)
    && (data[6] / 2 % 2 == 1 <==> checksum || frame.flags / 2 % 2 == 1) && data[6] / 4 == frame.flags / 4
    && Four(data, 8) == length && Eight(data, 12) == frame.transactionId && Eight(data, 20) == frame.requestId
  }

  lemma EncodedHeader(lib: Library, frame: Frame, maxPayload: nat, compress: bool, checksum: bool)
    requires Encode(lib, frame, maxPayload, compress, checksum).Ok?
    ensures
      var data := Encode(lib, frame, maxPayload, compress, checksum).value;
      var compressed := compress && frame.payload != [];
      var body := if compressed then lib.compress(frame.payload) else frame.payload;
      && |data| >= 32 && HeaderIs(frame, compressed, checksum, |body|, data)
      && data[6] == EncodedFlags(frame, compressed, checksum)
  {
    hide Four, Eight, Unpack, Pack;
    var compressed := compress && frame.payload != [];
    var body := if compressed then lib.compress(frame.payload) else frame.payload;
    var flags := EncodedFlags(frame, compressed, checksum);
    FlagsFit(frame, compressed, checksum);
    var marker := if compressed then 1 else 0;
    var fields := HeaderFields(frame.version, frame.opcode, flags, marker, |body|, frame.transactionId, frame.requestId);
    var data := Encode(lib, frame, maxPayload, compress, checksum).value;
    var crc := Pack(lib.crc(fields), 4);
    FieldsAt(frame.version, frame.opcode, flags, marker, |body|, frame.transactionId, frame.requestId, crc);
    Ranges();
    UnpackPack(|body|, 4);
    UnpackPack(frame.transactionId, 8);
    UnpackPack(frame.requestId, 8);
    UnpackIsFour(data, 8);
    UnpackIsEight(data, 12);
    UnpackIsEight(data, 20);
    var header := data[..32];
    assert header == fields + crc;
    assert header[8..12] == data[8..12] && header[12..20] == data[12..20] && header[20..28] == data[20..28];
    assert header[..4] == data[..4];
  }
}
