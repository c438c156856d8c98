/** Log entries as bytes: the entry codec with its three accepted forms, and checksummed frames. */
module Frames {
  import opened Core
  import opened Semantics

  type Byte = b: int | 0 <= b < 256
  type Bytes = seq<Byte>

  const CURRENT_WAL_VERSION: Byte := 2
  const FLAG_ZSTD: Byte := 1
  const HEADER_BYTES: nat := 12

  datatype WalEntry = WalEntry(version: Byte, lsn: nat, op: WalOp)

  datatype Compression = NoCompression | Zstd(level: int)

  /**
   * The libraries the log is written with: bincode, zstd and xxHash64. Encodable entries are those whose
   * numbers fit the program's types, vectors of `f32` values in particular.
   */
  datatype Codec = Codec(encodable: WalEntry -> bool, serialize: WalEntry -> Bytes,
                         deserialize: Bytes -> Option<WalEntry>,
                         compress: (Bytes, int) -> Bytes, decompress: Bytes -> Option<Bytes>, hash: Bytes -> U64) {

    /** Decoding undoes encoding, and the first serialized byte is the version. */
    ghost predicate Lawful() {
      && (forall e | encodable(e) :: SerializesWell(e))
      && (forall p, level :: decompress(compress(p, level)) == Some(p))
    }

    ghost predicate SerializesWell(e: WalEntry) {
      deserialize(serialize(e)) == Some(e) && |serialize(e)| > 0 && serialize(e)[0] == e.version
    }
  }

  // --- The flags byte and compression ---------------------------------------------------------------------

  datatype LogError =
    | MissingFlags
    | UnsupportedFlags(flags: Byte)
    | BadCompression
    | UnsupportedVersion(found: Byte)
    | Malformed
    | Crc(expected: nat, got: nat)

  datatype Decoded<+T> = Good(value: T) | Bad(error: LogError)

  /** `encode_payload`: compression is kept only when it makes the payload smaller. */
  function EncodePayload(c: Codec, compression: Compression, payload: Bytes): (r: Bytes)
    ensures 0 < |r| <= |payload| + 1 && (r[0] == 0 || r[0] == FLAG_ZSTD)
  {
    match compression
    case NoCompression => [0] + payload
    case Zstd(level) =>
      var compressed := c.compress(payload, level);
      if |compressed| < |payload| then [FLAG_ZSTD] + compressed else [0] + payload
  }

  function DecodePayload(c: Codec, payload: Bytes): Decoded<Bytes> {
    if payload == [] then Bad(MissingFlags)
    else if payload[0] != 0 && payload[0] != FLAG_ZSTD then Bad(UnsupportedFlags(payload[0]))
    else if payload[0] == FLAG_ZSTD then
      match c.decompress(payload[1..])
      case None => Bad(BadCompression)
      case Some(p) => Good(p)
    else Good(payload[1..])
  }

  /** `decode_entry`: an unflagged payload starts with the version byte, any other is flagged. */
  function DecodeEntry(c: Codec, payload: Bytes): Decoded<WalEntry> {
    if |payload| > 0 && payload[0] == CURRENT_WAL_VERSION then DecodeBody(c, payload)
    else
      match DecodePayload(c, payload)
      case Bad(e) => Bad(e)
      case Good(body) => DecodeBody(c, body)
  }

  function DecodeBody(c: Codec, body: Bytes): Decoded<WalEntry> {
    if |body| > 0 && body[0] != CURRENT_WAL_VERSION then Bad(UnsupportedVersion(body[0]))
    else
      match c.deserialize(body)
      case None => Bad(Malformed)
      case Some(e) => Good(e)
  }

  lemma PayloadRoundTrip(c: Codec, compression: Compression, payload: Bytes)
    requires c.Lawful()
    ensures DecodePayload(c, EncodePayload(c, compression, payload)) == Good(payload)
  {
    if compression.Zstd? {
      var compressed := c.compress(payload, compression.level);
      assert c.decompress(compressed) == Some(payload);
      assert ([FLAG_ZSTD] + compressed)[1..] == compressed;
    }
    assert ([0] + payload)[1..] == payload;
  }

  /** A payload costs one byte more than the smaller of its two forms; the byte tells which one it is. */
  lemma EncodedSize(c: Codec, compression: Compression, payload: Bytes)
    ensures var r := EncodePayload(c, compression, payload);
            match compression
            case NoCompression => |r| == 1 + |payload| && r[0] == 0
            case Zstd(level) =>
              var packed := |c.compress(payload, level)|;
              |r| == 1 + Min(packed, |payload|) && r[0] == if packed < |payload| then 1 else 0
  {
  }

  /** Every payload the decoder refuses, by its bytes, and why. */
  lemma Refused(c: Codec, payload: Bytes)
    ensures payload == [] ==> DecodeEntry(c, payload) == Bad(MissingFlags)
    ensures payload != [] && payload[0] > 2 ==> DecodeEntry(c, payload) == Bad(UnsupportedFlags(payload[0]))
    ensures payload != [] && payload[0] == 2 && c.deserialize(payload).None? ==>
              DecodeEntry(c, payload) == Bad(Malformed)
    ensures payload != [] && payload[0] == 1 && c.decompress(payload[1..]).None? ==>
              DecodeEntry(c, payload) == Bad(BadCompression)
    ensures |payload| > 1 && payload[0] == 0 && payload[1] != 2 ==>
              DecodeEntry(c, payload) == Bad(UnsupportedVersion(payload[1]))
    ensures payload != [] && payload[0] == 0 && (|payload| == 1 || payload[1] == 2) ==>
              c.deserialize(payload[1..]).None? ==> DecodeEntry(c, payload) == Bad(Malformed)
  {
  }

  /** A flagged frame, raw or compressed, gives back the entry exactly when it has the current version. */
  lemma FlaggedRoundTrip(c: Codec, compression: Compression, e: WalEntry)
    requires c.Lawful() && c.encodable(e)
    ensures DecodeEntry(c, EncodePayload(c, compression, c.serialize(e)))
         == if e.version == CURRENT_WAL_VERSION then Good(e) else Bad(UnsupportedVersion(e.version))
  {
    assert c.SerializesWell(e);
    PayloadRoundTrip(c, compression, c.serialize(e));
  }

  /** A frame from before flags existed gives back its entry. */
  lemma UnflaggedRoundTrip(c: Codec, e: WalEntry)
    requires c.Lawful() && c.encodable(e) && e.version == CURRENT_WAL_VERSION
    ensures DecodeEntry(c, c.serialize(e)) == Good(e)
  {
    assert c.SerializesWell(e);
  }

  /** No flagged payload, of whatever content, can be taken for an unflagged entry. */
  lemma FormsNeverCollide(c: Codec, compression: Compression, payload: Bytes, e: WalEntry)
    requires c.Lawful() && c.encodable(e) && e.version == CURRENT_WAL_VERSION
    ensures EncodePayload(c, compression, payload) != c.serialize(e)
  {
    assert c.SerializesWell(e);
  }

  // --- Little-endian integers -------------------------------------------------------------------------------

  function LittleEndian(x: nat, n: nat): (r: Bytes)
    ensures |r| == n
  {
    if n == 0 then [] else [x % 256] + LittleEndian(x / 256, n - 1)
  }

  function FromLittleEndian(s: Bytes): nat {
    if s == [] then 0 else s[0] + 256 * FromLittleEndian(s[1..])
  }

  function Power256(n: nat): nat {
    if n == 0 then 1 else 256 * Power256(n - 1)
  }

  lemma {:induction false} LittleEndianRoundTrip(x: nat, n: nat)
    requires x < Power256(n)
    ensures FromLittleEndian(LittleEndian(x, n)) == x
  {
    if n > 0 {
      LittleEndianRoundTrip(x / 256, n - 1);
      assert LittleEndian(x, n)[1..] == LittleEndian(x / 256, n - 1);
    }
  }

  const U32_RANGE: nat := 0x1_0000_0000

  lemma HeaderRanges()
    ensures Power256(4) == U32_RANGE && Power256(8) == U64_MAX + 1
  {
    assert Power256(4) == 256 * (256 * (256 * (256 * Power256(0))));
    assert Power256(8) == 256 * (256 * (256 * (256 * Power256(4))));
  }

  // --- Frames -------------------------------------------------------------------------------------------------

  /** `write_frame`: the length is cut to 32 bits. */
  function Frame(c: Codec, payload: Bytes): (r: Bytes)
    ensures |r| == HEADER_BYTES + |payload|
  {
    LittleEndian(|payload| % U32_RANGE, 4) + LittleEndian(c.hash(payload), 8) + payload
  }

  /** Where a frame's bytes lie: the length, low byte first, the hash likewise, then the payload. */
  lemma FrameLayout(c: Codec, payload: Bytes)
    requires |payload| < U32_RANGE
    ensures var f, n := Frame(c, payload), |payload|;
            && f[0] == n % 256 && f[1] == n / 0x100 % 256 && f[2] == n / 0x1_0000 % 256 && f[3] == n / 0x100_0000 % 256
            && f[4..12] == LittleEndian(c.hash(payload), 8) && f[12..] == payload
  {
    hide Frame, LittleEndian;
    FrameParts(c, payload);
    FourBytes(|payload|);
    var f := Frame(c, payload);
    assert f[0] == f[..4][0] && f[1] == f[..4][1] && f[2] == f[..4][2] && f[3] == f[..4][3];
  }

  lemma FrameParts(c: Codec, payload: Bytes)
    ensures var f := Frame(c, payload);
            && f[..4] == LittleEndian(|payload| % U32_RANGE, 4) && f[4..12] == LittleEndian(c.hash(payload), 8)
            && f[12..] == payload
  {
    hide LittleEndian;
    CutInThree(LittleEndian(|payload| % U32_RANGE, 4), LittleEndian(c.hash(payload), 8), payload);
  }

  lemma CutInThree(a: Bytes, b: Bytes, rest: Bytes)
    requires |a| == 4 && |b| == 8
    ensures var s := a + b + rest;
            s[..4] == a && s[4..12] == b && s[12..] == rest
  {
  }

  lemma FourBytes(x: nat)
    ensures LittleEndian(x, 4) == [x % 256, x / 0x100 % 256, x / 0x1_0000 % 256, x / 0x100_0000 % 256]
  {
    var a := x / 256;
    var b := a / 256;
    var d := b / 256;
    assert b == x / 0x1_0000 && d == x / 0x100_0000;
    assert LittleEndian(d, 1) == [d % 256] + LittleEndian(d / 256, 0);
    assert LittleEndian(b, 2) == [b % 256] + LittleEndian(d, 1);
    assert LittleEndian(a, 3) == [a % 256] + LittleEndian(b, 2);
  }

  datatype FrameRead = FrameRead(payload: Bytes, storedHash: nat, rest: Bytes)

  /** `read_frame`: nothing when the stream ends before the frame does. */
  function ReadFrame(s: Bytes): (r: Option<FrameRead>)
    ensures r.Some? ==> |r.value.rest| < |s|
  {
    if |s| < 4 then None
    else
      var len := FromLittleEndian(s[..4]);
      if |s| < 12 || |s| - 12 < len then None
      else Some(FrameRead(s[12..12 + len], FromLittleEndian(s[4..12]), s[12 + len..]))
  }

  lemma FrameHeader(c: Codec, payload: Bytes, tail: Bytes)
    ensures var s := Frame(c, payload) + tail;
            && |s| >= 12
            && FromLittleEndian(s[..4]) == |payload| % U32_RANGE
            && FromLittleEndian(s[4..12]) == c.hash(payload)
            && s[12..] == payload + tail
  {
    var s := Frame(c, payload) + tail;
    HeaderRanges();
    assert s[..4] == LittleEndian(|payload| % U32_RANGE, 4);
    assert s[4..12] == LittleEndian(c.hash(payload), 8);
    LittleEndianRoundTrip(|payload| % U32_RANGE, 4);
    LittleEndianRoundTrip(c.hash(payload), 8);
  }

  /** Reading back a frame gives its payload, checksum and what follows, unless the length was cut. */
  lemma ReadAfterWrite(c: Codec, payload: Bytes, tail: Bytes)
    requires |payload| < U32_RANGE
    ensures ReadFrame(Frame(c, payload) + tail) == Some(FrameRead(payload, c.hash(payload), tail))
  {
    FrameHeader(c, payload, tail);
    var s := Frame(c, payload) + tail;
    assert s[12..12 + |payload|] == s[12..][..|payload|] == payload;
    assert s[12 + |payload|..] == s[12..][|payload|..] == tail;
  }

  /** A frame is read back whole exactly when its payload fits the 32-bit length. */
  lemma FrameRoundTripIff(c: Codec, payload: Bytes)
    ensures ReadFrame(Frame(c, payload)) == Some(FrameRead(payload, c.hash(payload), [])) <==> |payload| < U32_RANGE
  {
    assert Frame(c, payload) + [] == Frame(c, payload);
    if |payload| < U32_RANGE {
      ReadAfterWrite(c, payload, []);
    } else {
      FrameHeader(c, payload, []);
      var r := ReadFrame(Frame(c, payload));
      assert r.Some? ==> |r.value.payload| == |payload| % U32_RANGE;
    }
  }

  /** A frame cut short anywhere is no frame. */
  lemma TornFrame(c: Codec, payload: Bytes, n: nat)
    requires |payload| < U32_RANGE && n < |Frame(c, payload)|
    ensures ReadFrame(Frame(c, payload)[..n]).None?
  {
    FrameHeader(c, payload, []);
    var s := Frame(c, payload);
    assert s + [] == s;
    if n >= 4 { assert s[..n][..4] == s[..4]; }
  }
}
