/** The layout of the IPC request frames, over any byte and word type whose field codecs are
    exact inverses. */
module FrameLayout {
  import opened Options

  const PROTOCOL_VERSION: nat := 1
  const MAX_PAYLOAD_LEN: nat := 256
  const TOKEN_LEN: nat := 32
  const HEADER_LEN: nat := 44
  const MIN_FRAME_SIZE: nat := 48

  datatype CommandVerb =
    QueryStatus | RequestAcquire | RequestRelease | ScheduleAction | CancelSchedule

  datatype IpcError<+W> =
    | InvalidMagic
    | UnsupportedVersion(version: nat)
    | PayloadTooLarge(length: nat)
    | PayloadTruncated
    | TrailingBytes(expectedLen: nat, found: nat)
    | CrcMismatch(expected: W, calculated: W)
    | InvalidCommandVerb(verb: W)

  datatype Result<+T, +W> = Ok(value: T) | Err(error: IpcError<W>)

  datatype IpcFrame<+B> = IpcFrame(token: seq<B>, verb: CommandVerb, payload: seq<B>)

  /** What the Rust type itself guarantees: a token is an array of 32 bytes. */
  predicate Typed<B>(f: IpcFrame<B>) {
    |f.token| == TOKEN_LEN
  }

  /** The primitive field codecs a frame is built from. */
  datatype Codec<!B, !W> = Codec(
    magic: seq<B>,
    le16: nat -> seq<B>,
    from16: (B, B) -> nat,
    le32: W -> seq<B>,
    from32: seq<B> -> W,
    crc: seq<B> -> W,
    verbCode: CommandVerb -> W,
    verbFrom: W -> Option<CommandVerb>)

  ghost predicate Writes16<B, W>(c: Codec<B, W>, n: nat) {
    |c.le16(n)| == 2 && c.from16(c.le16(n)[0], c.le16(n)[1]) == n % 65536
  }

  ghost predicate Reads16<B, W>(c: Codec<B, W>, lo: B, hi: B) {
    c.le16(c.from16(lo, hi)) == [lo, hi]
  }

  ghost predicate Writes32<B, W>(c: Codec<B, W>, w: W) {
    |c.le32(w)| == 4 && c.from32(c.le32(w)) == w
  }

  ghost predicate Reads32<B, W>(c: Codec<B, W>, s: seq<B>) {
    |s| == 4 ==> c.le32(c.from32(s)) == s
  }

  ghost predicate VerbLaw<B, W>(c: Codec<B, W>, w: W, v: CommandVerb) {
    c.verbFrom(w) == Some(v) <==> c.verbCode(v) == w
  }

  ghost predicate Lawful<B(!new), W(!new)>(c: Codec<B, W>) {
    && |c.magic| == 4
    && (forall n: nat :: Writes16(c, n))
    && (forall lo, hi :: Reads16(c, lo, hi))
    && (forall w :: Writes32(c, w))
    && (forall s :: Reads32(c, s))
    && (forall w, v :: VerbLaw(c, w, v))
  }

  // ---------------------------------------------------------------------------
  // The codec.

  function Body<B, W>(c: Codec<B, W>, f: IpcFrame<B>): seq<B> {
    c.magic + c.le16(PROTOCOL_VERSION) + c.le16(|f.payload|) + f.token + c.le32(c.verbCode(f.verb))
    + f.payload
  }

  function Wire<B, W>(c: Codec<B, W>, f: IpcFrame<B>): seq<B> {
    Body(c, f) + c.le32(c.crc(Body(c, f)))
  }

  function Deserialize<B(==), W(==)>(c: Codec<B, W>, data: seq<B>): Result<IpcFrame<B>, W> {
    if |data| < MIN_FRAME_SIZE then Err(PayloadTruncated)
    else if data[0..4] != c.magic then Err(InvalidMagic)
    else
      var version := c.from16(data[4], data[5]);
      if version != PROTOCOL_VERSION then Err(UnsupportedVersion(version))
      else
        var payloadLen := c.from16(data[6], data[7]);
        if payloadLen > MAX_PAYLOAD_LEN then Err(PayloadTooLarge(payloadLen))
        else
          var total := HEADER_LEN + payloadLen + 4;
          if |data| < total then Err(PayloadTruncated)
          else if |data| > total then Err(TrailingBytes(total, |data|))
          else
            var bodyLen := HEADER_LEN + payloadLen;
            var expected := c.from32(data[bodyLen..bodyLen + 4]);
            var calculated := c.crc(data[..bodyLen]);
            if calculated != expected then Err(CrcMismatch(expected, calculated))
            else
              var verbRaw := c.from32(data[40..44]);
              match c.verbFrom(verbRaw)
              case None => Err(InvalidCommandVerb(verbRaw))
              case Some(verb) => Ok(IpcFrame(data[8..40], verb, data[44..44 + payloadLen]))
  }

  lemma BodyLayout<B(!new), W(!new)>(c: Codec<B, W>, f: IpcFrame<B>)
    requires Lawful(c) && Typed(f)
    ensures var b := Body(c, f);
            && |c.le16(PROTOCOL_VERSION)| == 2 && |c.le16(|f.payload|)| == 2 && |b| == HEADER_LEN + |f.payload|
            && b[0..4] == c.magic && b[4..6] == c.le16(PROTOCOL_VERSION) && b[6..8] == c.le16(|f.payload|)
            && b[8..40] == f.token && b[40..44] == c.le32(c.verbCode(f.verb)) && b[44..] == f.payload
  {
    assert Writes16(c, PROTOCOL_VERSION) && Writes16(c, |f.payload|);
    assert Writes32(c, c.verbCode(f.verb));
  }

  lemma WireParts<B(!new), W(!new)>(c: Codec<B, W>, f: IpcFrame<B>)
    requires Lawful(c) && Typed(f)
    ensures var w, n := Wire(c, f), |f.payload|;
            && |w| == HEADER_LEN + n + 4
            && w[..4] == c.magic && w[4..6] == c.le16(PROTOCOL_VERSION) && w[6..8] == c.le16(n)
            && w[8..40] == f.token && w[40..44] == c.le32(c.verbCode(f.verb)) && w[44..44 + n] == f.payload
            && w[44 + n..] == c.le32(c.crc(w[..44 + n]))
  {
    var b, w, n := Body(c, f), Wire(c, f), |f.payload|;
    BodyLayout(c, f);
    assert Writes32(c, c.crc(b));
    assert w[..44 + n] == b;
    assert w[..4] == b[0..4] && w[4..6] == b[4..6] && w[6..8] == b[6..8] && w[8..40] == b[8..40];
    assert w[40..44] == b[40..44] && w[44..44 + n] == b[44..];
  }

  /** Whether the last four bytes are the checksum of the others. */
  predicate Sealed<B, W(==)>(c: Codec<B, W>, data: seq<B>)
    requires |data| >= 4
  {
    c.crc(data[..|data| - 4]) == c.from32(data[|data| - 4..])
  }

  /** A frame survives the wire exactly when its payload is within the protocol's limit. */
  lemma RoundTrip<B(!new), W(!new)>(c: Codec<B, W>, f: IpcFrame<B>)
    requires Lawful(c) && Typed(f)
    ensures Deserialize(c, Wire(c, f)) == Ok(f) <==> |f.payload| <= MAX_PAYLOAD_LEN
    ensures |f.payload| > MAX_PAYLOAD_LEN ==> Deserialize(c, Wire(c, f)).Err?
  {
    var b, n := Body(c, f), |f.payload|;
    var data := Wire(c, f);
    BodyLayout(c, f);
    assert data[..|b|] == b;
    assert data[0..4] == b[0..4] && data[4..6] == b[4..6] && data[6..8] == b[6..8];
    assert Writes16(c, PROTOCOL_VERSION) && Writes16(c, n);
    assert data[4] == c.le16(PROTOCOL_VERSION)[0] && data[5] == c.le16(PROTOCOL_VERSION)[1];
    assert data[6] == c.le16(n)[0] && data[7] == c.le16(n)[1];
    if n <= MAX_PAYLOAD_LEN {
      assert Writes32(c, c.crc(b)) && Writes32(c, c.verbCode(f.verb));
      assert data[|b|..|b| + 4] == c.le32(c.crc(b));
      assert data[40..44] == b[40..44] && data[8..40] == b[8..40] && data[44..44 + n] == b[44..];
      assert VerbLaw(c, c.verbCode(f.verb), f.verb);
    }
  }

  /** What acceptance means, without naming the decoder's branches. */
  lemma AcceptedIsSealed<B(!new), W(!new)>(c: Codec<B, W>, data: seq<B>)
    requires Lawful(c) && Deserialize(c, data).Ok?
    ensures |data| >= MIN_FRAME_SIZE && Sealed(c, data)
    ensures |data| == HEADER_LEN + |Deserialize(c, data).value.payload| + 4
  {
    var n := c.from16(data[6], data[7]);
    assert data[HEADER_LEN + n..HEADER_LEN + n + 4] == data[|data| - 4..];
  }

  /** Every accepted byte string is the serialization of the frame it decodes to. */
  lemma AcceptedReserializes<B(!new), W(!new)>(c: Codec<B, W>, data: seq<B>)
    requires Lawful(c) && Deserialize(c, data).Ok?
    ensures var f := Deserialize(c, data).value;
            Typed(f) && |f.payload| <= MAX_PAYLOAD_LEN && Wire(c, f) == data
  {
    var f, n := Deserialize(c, data).value, c.from16(data[6], data[7]);
    assert Reads16(c, data[4], data[5]) && Reads16(c, data[6], data[7]);
    assert Reads32(c, data[40..44]) && Reads32(c, data[HEADER_LEN + n..]);
    assert VerbLaw(c, c.from32(data[40..44]), f.verb);
    assert data[4..6] == [data[4], data[5]] && data[6..8] == [data[6], data[7]];
    var body := data[..HEADER_LEN + n];
    BodyLayout(c, f);
    assert Body(c, f) == body by {
      assert body == body[0..4] + body[4..6] + body[6..8] + body[8..40] + body[40..44] + body[44..];
    }
    assert data[HEADER_LEN + n..HEADER_LEN + n + 4] == data[HEADER_LEN + n..];
    assert data == body + data[HEADER_LEN + n..];
  }

  /** No frame is a proper prefix of another: cut or extended frames are rejected. */
  lemma LengthDamageRejected<B(!new), W(!new)>(c: Codec<B, W>, f: IpcFrame<B>, data: seq<B>)
    requires Lawful(c) && Typed(f) && |f.payload| <= MAX_PAYLOAD_LEN
    requires data != Wire(c, f) && (data <= Wire(c, f) || Wire(c, f) <= data)
    ensures Deserialize(c, data).Err?
  {
    var w := Wire(c, f);
    BodyLayout(c, f);
    assert Writes16(c, |f.payload|) && Writes32(c, c.crc(Body(c, f)));
    if |data| >= MIN_FRAME_SIZE {
      assert w[6..8] == c.le16(|f.payload|);
      assert data[6] == w[6] == c.le16(|f.payload|)[0] && data[7] == w[7] == c.le16(|f.payload|)[1];
    }
  }
}

/** The request frames as the wire protocol encodes them: eight bit bytes and CRC-32 trailers. */
module Frame {
  import opened Options
  import opened Crc
  import opened FrameLayout

  const MAGIC: seq<Byte> := [0x54, 0x54, 0x49, 0x50]

  type Request = IpcFrame<Byte>

  function VerbCode(v: CommandVerb): Word {
    match v
    case QueryStatus => 1
    case RequestAcquire => 2
    case RequestRelease => 3
    case ScheduleAction => 4
    case CancelSchedule => 5
  }

  function VerbFromCode(w: Word): (r: Option<CommandVerb>)
    ensures forall v: CommandVerb :: r == Some(v) <==> VerbCode(v) == w
  {
    if w == 1 then Some(QueryStatus)
    else if w == 2 then Some(RequestAcquire)
    else if w == 3 then Some(RequestRelease)
    else if w == 4 then Some(ScheduleAction)
    else if w == 5 then Some(CancelSchedule)
    else None
  }

  // ---------------------------------------------------------------------------
  // Sixteen bit little-endian fields.

  /** The number written by a list of binary digits, lowest first. */
  function BitsValue(bits: seq<bool>): nat {
    if bits == [] then 0 else (if bits[0] then 1 else 0) + 2 * BitsValue(bits[1..])
  }

  function ValueBits(n: nat, width: nat): (bits: seq<bool>)
    ensures |bits| == width
    decreases width
  {
    if width == 0 then [] else [n % 2 == 1] + ValueBits(n / 2, width - 1)
  }

  function Pow2(k: nat): (p: nat)
    ensures p > 0
  {
    if k == 0 then 1 else 2 * Pow2(k - 1)
  }

  lemma {:induction false} BitsOfValue(bits: seq<bool>)
    ensures ValueBits(BitsValue(bits), |bits|) == bits
    ensures BitsValue(bits) < Pow2(|bits|)
  {
    if bits != [] {
      BitsOfValue(bits[1..]);
      assert bits == [bits[0]] + bits[1..];
    }
  }

  /** Writing a number in `width` digits keeps it modulo that power of two. */
  lemma {:induction false} ValueOfBits(n: nat, width: nat)
    ensures BitsValue(ValueBits(n, width)) == n % Pow2(width)
    decreases width
  {
    if width > 0 {
      ValueOfBits(n / 2, width - 1);
      assert ValueBits(n, width)[1..] == ValueBits(n / 2, width - 1);
      HalvedRemainder(n, Pow2(width - 1));
    }
  }

  lemma HalvedRemainder(n: nat, p: nat)
    requires p > 0
    ensures n % 2 + 2 * (n / 2 % p) == n % (2 * p)
  {
    var q, r := n / 2 / p, n / 2 % p;
    assert n / 2 == p * q + r;
    assert n == (2 * p) * q + (n % 2 + 2 * r);
    RemainderIs(n, 2 * p, q, n % 2 + 2 * r);
  }

  lemma RemainderIs(n: int, m: int, q: int, r: int)
    requires m > 0 && 0 <= r < m && n == m * q + r
    ensures n % m == r
  {
    var d := q - n / m;
    assert n == m * (n / m) + n % m;
    assert m * d == n % m - r;
    assert d >= 1 ==> m * d >= m;
    assert d <= -1 ==> m * d <= -m;
  }

  function PickBit(b: bool, m: Byte): Byte {
    if b then m else 0
  }

  function PackByte(b: seq<bool>): Byte
    requires |b| == 8
  {
    PickBit(b[0], 1) | PickBit(b[1], 2) | PickBit(b[2], 4) | PickBit(b[3], 8)
    | PickBit(b[4], 16) | PickBit(b[5], 32) | PickBit(b[6], 64) | PickBit(b[7], 128)
  }

  lemma PackUnpack(b: seq<bool>)
    requires |b| == 8
    ensures ByteBits(PackByte(b)) == b
  {
  }

  lemma UnpackPack(b: Byte)
    ensures PackByte(ByteBits(b)) == b
  {
  }

  /** `n as u16` followed by `to_le_bytes`. */
  function LeU16(n: nat): (s: seq<Byte>)
    ensures |s| == 2
  {
    var bits := ValueBits(n, 16);
    [PackByte(bits[..8]), PackByte(bits[8..])]
  }

  function FromLeU16(lo: Byte, hi: Byte): nat {
    BitsValue(ByteBits(lo) + ByteBits(hi))
  }

  lemma U16RoundTrip(n: nat)
    ensures FromLeU16(LeU16(n)[0], LeU16(n)[1]) == n % 65536
  {
    var bits := ValueBits(n, 16);
    PackUnpack(bits[..8]);
    PackUnpack(bits[8..]);
    assert bits[..8] + bits[8..] == bits;
    ValueOfBits(n, 16);
    assert Pow2(8) == 256;
  }

  lemma U16RoundTripBytes(lo: Byte, hi: Byte)
    ensures LeU16(FromLeU16(lo, hi)) == [lo, hi]
  {
    var bits := ByteBits(lo) + ByteBits(hi);
    BitsOfValue(bits);
    assert bits[..8] == ByteBits(lo) && bits[8..] == ByteBits(hi);
    UnpackPack(lo);
    UnpackPack(hi);
  }

  // ---------------------------------------------------------------------------
  // The codec.

  function WordFrom(s: seq<Byte>): Word {
    if |s| == 4 then FromLeBytes(s) else 0
  }

  function Native(): Codec<Byte, Word> {
    Codec(MAGIC, LeU16, FromLeU16, LeBytes, WordFrom, Crc32, VerbCode, VerbFromCode)
  }

  function Wire(f: Request): seq<Byte> {
    FrameLayout.Wire(Native(), f)
  }

  function Deserialize(data: seq<Byte>): Result<Request, Word> {
    FrameLayout.Deserialize(Native(), data)
  }

  /** The source's buffer, grown field by field. */
  method Serialize(f: Request) returns (buffer: seq<Byte>)
    ensures buffer == Wire(f)
  {
    buffer := MAGIC;
    buffer := buffer + LeU16(PROTOCOL_VERSION);
    buffer := buffer + LeU16(|f.payload|);
    buffer := buffer + f.token;
    buffer := buffer + LeBytes(VerbCode(f.verb));
    buffer := buffer + f.payload;
    var checksum := ComputeCrc32(buffer);
    buffer := buffer + LeBytes(checksum);
  }

  lemma NativeWrites16(n: nat)
    ensures Writes16(Native(), n)
  {
    U16RoundTrip(n);
  }

  lemma NativeReads16(lo: Byte, hi: Byte)
    ensures Reads16(Native(), lo, hi)
  {
    U16RoundTripBytes(lo, hi);
  }

  lemma NativeWrites32(w: Word)
    ensures Writes32(Native(), w)
  {
    LeRoundTrip(w);
  }

  lemma NativeReads32(s: seq<Byte>)
    ensures Reads32(Native(), s)
  {
    if |s| == 4 {
      LeRoundTripBytes(s);
    }
  }

  lemma NativeIsLawful()
    ensures Lawful(Native())
  {
    forall n: nat ensures Writes16(Native(), n) {
      NativeWrites16(n);
    }
    forall lo, hi ensures Reads16(Native(), lo, hi) {
      NativeReads16(lo, hi);
    }
    forall w ensures Writes32(Native(), w) {
      NativeWrites32(w);
    }
    forall s ensures Reads32(Native(), s) {
      NativeReads32(s);
    }
    forall w, v ensures VerbLaw(Native(), w, v) {
      assert VerbFromCode(w) == Some(v) <==> VerbCode(v) == w;
    }
  }

  lemma {:induction false} BitsValueAppend(a: seq<bool>, b: seq<bool>)
    ensures BitsValue(a + b) == BitsValue(a) + Pow2(|a|) * BitsValue(b)
  {
    if a == [] {
      assert a + b == b;
    } else {
      assert (a + b)[1..] == a[1..] + b;
      BitsValueAppend(a[1..], b);
      DoubledSum(BitsValue(a[1..]), Pow2(|a| - 1), BitsValue(b));
    }
  }

  lemma DoubledSum(x: nat, p: nat, v: nat)
    ensures 2 * (x + p * v) == 2 * x + (2 * p) * v
  {
  }

  lemma U16LowFirst(n: nat)
    requires n < 65536
    ensures BitsValue(ByteBits(LeU16(n)[0])) + 256 * BitsValue(ByteBits(LeU16(n)[1])) == n
  {
    U16RoundTrip(n);
    PairValue(n, LeU16(n)[0], LeU16(n)[1]);
  }

  lemma PairValue(n: nat, lo: Byte, hi: Byte)
    requires n < 65536 && FromLeU16(lo, hi) == n % 65536
    ensures BitsValue(ByteBits(lo)) + 256 * BitsValue(ByteBits(hi)) == n
  {
    TwoBytesValue(lo, hi);
  }

  lemma TwoBytesValue(lo: Byte, hi: Byte)
    ensures FromLeU16(lo, hi) == BitsValue(ByteBits(lo)) + 256 * BitsValue(ByteBits(hi))
  {
    EightAndMore(ByteBits(lo), ByteBits(hi));
  }

  lemma EightAndMore(a: seq<bool>, b: seq<bool>)
    requires |a| == 8
    ensures BitsValue(a + b) == BitsValue(a) + 256 * BitsValue(b)
  {
    BitsValueAppend(a, b);
    assert Pow2(8) == 256;
  }

  lemma VersionBytes()
    ensures LeU16(1) == [1, 0]
  {
    var bits := ValueBits(1, 16);
    OneBits(16);
    PackedOne(bits[..8]);
    PackedNone(bits[8..]);
  }

  lemma PackedOne(b: seq<bool>)
    requires |b| == 8 && b[0] && forall i :: 1 <= i < 8 ==> !b[i]
    ensures PackByte(b) == 1
  {
  }

  lemma PackedNone(b: seq<bool>)
    requires |b| == 8 && forall i :: 0 <= i < 8 ==> !b[i]
    ensures PackByte(b) == 0
  {
  }

  lemma OneBits(width: nat)
    requires width > 0
    ensures ValueBits(1, width)[0] && forall i :: 1 <= i < width ==> !ValueBits(1, width)[i]
  {
    ZeroBits(width - 1);
  }

  lemma {:induction false} ZeroBits(width: nat)
    ensures forall i :: 0 <= i < width ==> !ValueBits(0, width)[i]
  {
    if width > 0 {
      ZeroBits(width - 1);
    }
  }

  lemma VerbBytes(v: CommandVerb)
    ensures LeBytes(VerbCode(v)) == [match v case QueryStatus => 1 case RequestAcquire => 2 case RequestRelease => 3
                                     case ScheduleAction => 4 case CancelSchedule => 5, 0, 0, 0]
  {
  }

  /** The bytes of a frame, place by place: magic, version, length and verb lowest byte first, token and
      payload as they are, and the checksum of all of it, lowest byte first. */
  lemma WireLayout(f: Request)
    requires Typed(f) && |f.payload| <= MAX_PAYLOAD_LEN
    ensures var w, n := Wire(f), |f.payload|;
            && |w| == 48 + n
            && w[..4] == [0x54, 0x54, 0x49, 0x50] && w[4..6] == [1, 0]
            && BitsValue(ByteBits(w[6])) + 256 * BitsValue(ByteBits(w[7])) == n
            && w[8..40] == f.token
            && w[40..44] == [match f.verb case QueryStatus => 1 case RequestAcquire => 2 case RequestRelease => 3
                             case ScheduleAction => 4 case CancelSchedule => 5, 0, 0, 0]
            && w[44..44 + n] == f.payload && w[44 + n..] == LeBytes(Crc32(w[..44 + n]))
  {
    NativeIsLawful();
    WireParts(Native(), f);
    U16LowFirst(|f.payload|);
    VersionBytes();
    VerbBytes(f.verb);
    SixthAndSeventh(Wire(f), LeU16(|f.payload|));
  }

  lemma SixthAndSeventh<T>(w: seq<T>, pair: seq<T>)
    requires |w| >= 8 && w[6..8] == pair
    ensures |pair| == 2 && w[6] == pair[0] && w[7] == pair[1]
  {
  }

  /** A frame survives the wire exactly when its payload is within the protocol's limit. */
  lemma WireRoundTrip(f: Request)
    requires Typed(f)
    ensures Deserialize(Wire(f)) == Ok(f) <==> |f.payload| <= MAX_PAYLOAD_LEN
    ensures |f.payload| > MAX_PAYLOAD_LEN ==> Deserialize(Wire(f)).Err?
  {
    NativeIsLawful();
    RoundTrip(Native(), f);
  }

  /** Every accepted byte string is the serialization of the frame it decodes to. */
  lemma WireReserializes(data: seq<Byte>)
    requires Deserialize(data).Ok?
    ensures var f := Deserialize(data).value;
            Typed(f) && |f.payload| <= MAX_PAYLOAD_LEN && Wire(f) == data
  {
    NativeIsLawful();
    AcceptedReserializes(Native(), data);
  }

  lemma WireSealed(data: seq<Byte>)
    requires Deserialize(data).Ok?
    ensures |data| >= MIN_FRAME_SIZE && Crc.Sealed(data)
  {
    NativeIsLawful();
    AcceptedIsSealed(Native(), data);
  }

  /** Damage confined to any 32 consecutive bits of a serialized frame, wherever they lie, is
      always rejected. */
  lemma BurstRejected(f: Request, data: seq<Byte>, start: nat, width: nat)
    requires Typed(f) && |f.payload| <= MAX_PAYLOAD_LEN
    requires |data| == |Wire(f)| && data != Wire(f)
    requires width <= 32 && start + width <= 8 * |data|
    requires Bits(data)[..start] == Bits(Wire(f))[..start]
    requires Bits(data)[start + width..] == Bits(Wire(f))[start + width..]
    ensures Deserialize(data).Err?
  {
    if Deserialize(data).Ok? {
      WireRoundTrip(f);
      WireSealed(Wire(f));
      WireSealed(data);
      BurstDetected(data, Wire(f), start, width);
    }
  }

  /** The byte form: any change inside four consecutive bytes is rejected. */
  lemma ByteBurstRejected(f: Request, data: seq<Byte>, p: nat)
    requires Typed(f) && |f.payload| <= MAX_PAYLOAD_LEN
    requires |data| == |Wire(f)| && data != Wire(f) && p + 4 <= |data|
    requires data[..p] == Wire(f)[..p] && data[p + 4..] == Wire(f)[p + 4..]
    ensures Deserialize(data).Err?
  {
    if Deserialize(data).Ok? {
      WireRoundTrip(f);
      WireSealed(Wire(f));
      WireSealed(data);
      ByteBurstDetected(data, Wire(f), p);
    }
  }

  /** Cut or extended frames are rejected too: no frame is a proper prefix of another. */
  lemma CutOrExtendedRejected(f: Request, data: seq<Byte>)
    requires Typed(f) && |f.payload| <= MAX_PAYLOAD_LEN
    requires data != Wire(f) && (data <= Wire(f) || Wire(f) <= data)
    ensures Deserialize(data).Err?
  {
    NativeIsLawful();
    LengthDamageRejected(Native(), f, data);
  }
}
