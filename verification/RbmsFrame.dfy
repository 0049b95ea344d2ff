/** Frames exchanged with the racks: the builder, the checker, and what they are to each other. */
module RbmsFrame {
  import opened MachineInts
  import opened Bytes
  import opened Crc16
  import opened Crc16Bursts
  import opened Crc16Parity

  const PROTOCOL_HEAD: byte := 0xA5
  const PROTOCOL_VERSION: byte := 0x02
  const MAX_DATA_LEN := 1500
  const MAX_PAYLOAD_LEN := 1492
  const LINK_SIZE := 5
  const FIXED_BODY := 8

  /** `SrcDestMsgV2`, `TransportMsgV1` and the two command bytes. */
  datatype Envelope = Envelope(src: byte, srcSub: byte, dest: byte, destSub: byte,
                               transportType: byte, frameId: byte, cmdGroup: byte, cmdId: byte)

  // ---------------------------------------------------------------- layout

  /** Bytes 2 and 3 form one word, low byte first: the version in its 5 low bits, the body length in the
      11 high bits. The low byte therefore holds the 3 low bits of the length. */
  function LenLow(len: nat): byte {
    (ByteOf(len % 8) << 5) | PROTOCOL_VERSION
  }

  function LenHigh(len: nat): byte
    requires len < 2048
  {
    ByteOf(len / 8)
  }

  function Header(len: nat, crc: bv16): seq<byte>
    requires len < 2048
  {
    [PROTOCOL_HEAD, LenLow(len), LenHigh(len), LowByte(crc), HighByte(crc)]
  }

  function EnvelopeBytes(e: Envelope): seq<byte> {
    [e.src, e.srcSub, e.dest, e.destSub, e.transportType, e.frameId, e.cmdGroup, e.cmdId]
  }

  function Body(e: Envelope, payload: seq<byte>): seq<byte> {
    EnvelopeBytes(e) + payload
  }

  /** A well-formed frame around `body`. */
  function Frame(body: seq<byte>): seq<byte>
    requires |body| < 2048
  {
    Header(|body|, Crc(body)) + body
  }

  /** `ver_len & 0x1F` and `ver_len >> 5` of the word made of bytes 2 and 3. */
  function VersionField(low: byte, high: byte): byte {
    (Word(high, low) & 0x1F) as byte
  }

  function LenField(low: byte, high: byte): nat {
    (Word(high, low) >> 5) as int
  }

  lemma FieldsOfBytes(low: byte, high: byte)
    ensures VersionField(low, high) == low & 0x1F
    ensures LenField(low, high) == (low >> 5) as int + 8 * (high as int)
  {
  }

  lemma PackedByte(x: byte)
    requires x < 8
    ensures ((x << 5) | 2) >> 5 == x && ((x << 5) | 2) & 0x1F == 2
  {
  }

  lemma UnpackedByte(x: byte)
    requires x & 0x1F == 2
    ensures x == ((x >> 5) << 5) | 2 && 0 <= (x >> 5) as int < 8
  {
  }

  lemma LenFieldOfHeader(len: nat)
    requires len < 2048
    ensures LenField(LenLow(len), LenHigh(len)) == len
    ensures VersionField(LenLow(len), LenHigh(len)) == PROTOCOL_VERSION
  {
    FieldsOfBytes(LenLow(len), LenHigh(len));
    ValueOfByte(ByteOf(len % 8));
    PackedByte(ByteOf(len % 8));
  }

  /** Version and length leave no freedom in the two bytes. */
  lemma HeaderIsDetermined(low: byte, high: byte, len: nat)
    requires VersionField(low, high) == PROTOCOL_VERSION && len == LenField(low, high)
    ensures len < 2048 && low == LenLow(len) && high == LenHigh(len)
  {
    FieldsOfBytes(low, high);
    PartsDetermineBytes(low, high, (low >> 5) as int, high as int, len);
  }

  lemma LowPart(low: byte, x: byte)
    requires low & 0x1F == 2 && x as int == (low >> 5) as int
    ensures low == (x << 5) | PROTOCOL_VERSION
  {
    ByteIsItsValue(x, low >> 5);
    UnpackedByte(low);
  }

  lemma LowIsLenLow(low: byte, len: nat)
    requires low & 0x1F == 2 && len % 8 == (low >> 5) as int
    ensures low == LenLow(len)
  {
    LowPart(low, ByteOf(len % 8));
  }

  lemma HighIsLenHigh(high: byte, len: nat)
    requires len < 2048 && len / 8 == high as int
    ensures high == LenHigh(len)
  {
    ByteIsItsValue(high, ByteOf(len / 8));
  }

  lemma PartsDetermineBytes(low: byte, high: byte, l: nat, h: nat, len: nat)
    requires low & 0x1F == 2 && l == (low >> 5) as int && h == high as int && len == l + 8 * h
    ensures len < 2048 && low == LenLow(len) && high == LenHigh(len)
  {
    UnpackedByte(low);
    ValueOfByte(high);
    assert len % 8 == l && len / 8 == h && len < 2048;
    LowIsLenLow(low, len);
    HighIsLenHigh(high, len);
  }

  lemma WordOfItsHalves(c: bv16)
    ensures Word(HighByte(c), LowByte(c)) == c
  {
  }

  lemma HalvesOfWord(low: byte, high: byte)
    ensures LowByte(Word(high, low)) == low && HighByte(Word(high, low)) == high
  {
  }

  lemma FrameLayout(body: seq<byte>)
    requires |body| < 2048
    ensures |Frame(body)| == LINK_SIZE + |body| && Frame(body)[LINK_SIZE..] == body
    ensures DecodeLinkHeader(Frame(body)) == Some((|body|, Crc(body)))
  {
    LenFieldOfHeader(|body|);
    WordOfItsHalves(Crc(body));
  }

  // ---------------------------------------------------------------- the checker

  datatype Option<T> = None | Some(value: T)

  /** Body length and checksum of a link header; None for a wrong head or version. */
  function DecodeLinkHeader(data: seq<byte>): Option<(nat, bv16)>
    requires |data| >= LINK_SIZE
  {
    if data[0] != PROTOCOL_HEAD then None
    else if VersionField(data[1], data[2]) != PROTOCOL_VERSION then None
    else Some((LenField(data[1], data[2]), Word(data[4], data[3])))
  }

  /** 0 accepted, 1 too short, 2 bad head or version, 3 bad length, 4 bad checksum. */
  function ParseCheck(data: seq<byte>): (code: nat)
    ensures code == 0 ==> LINK_SIZE + FIXED_BODY <= |data| <= LINK_SIZE + MAX_DATA_LEN
  {
    if |data| < LINK_SIZE + FIXED_BODY then 1
    else
      match DecodeLinkHeader(data)
      case None => 2
      case Some((bodyLen, checkCrc)) =>
        if bodyLen > MAX_DATA_LEN then 3
        else if bodyLen != |data| - LINK_SIZE then 3
        else if checkCrc != Crc(data[LINK_SIZE..]) then 4
        else 0
  }

  /** The checker accepts exactly the well-formed frames with 8 to 1500 body bytes. */
  lemma AcceptedIffWellFormed(data: seq<byte>)
    ensures ParseCheck(data) == 0 <==>
      FIXED_BODY <= |data| - LINK_SIZE <= MAX_DATA_LEN && data == Frame(data[LINK_SIZE..])
  {
    if FIXED_BODY <= |data| - LINK_SIZE <= MAX_DATA_LEN {
      FrameLayout(data[LINK_SIZE..]);
      if ParseCheck(data) == 0 {
        AcceptedIsWellFormed(data);
      }
    }
  }

  lemma HeaderFromFields(low: byte, high: byte, crcLow: byte, crcHigh: byte, len: nat, crc: bv16)
    requires VersionField(low, high) == PROTOCOL_VERSION && len == LenField(low, high)
    requires crc == Word(crcHigh, crcLow)
    ensures len < 2048 && [PROTOCOL_HEAD, low, high, crcLow, crcHigh] == Header(len, crc)
  {
    HeaderIsDetermined(low, high, len);
    HalvesOfWord(crcLow, crcHigh);
  }

  lemma AcceptedFields(data: seq<byte>)
    requires ParseCheck(data) == 0
    ensures |data| >= LINK_SIZE && data[0] == PROTOCOL_HEAD
    ensures VersionField(data[1], data[2]) == PROTOCOL_VERSION && LenField(data[1], data[2]) == |data| - LINK_SIZE
    ensures Crc(data[LINK_SIZE..]) == Word(data[4], data[3])
  {
  }

  lemma AcceptedIsWellFormed(data: seq<byte>)
    requires ParseCheck(data) == 0
    ensures data == Frame(data[LINK_SIZE..])
  {
    AcceptedFields(data);
    FrameFromFields(data, data[LINK_SIZE..], data[1], data[2], data[3], data[4]);
  }

  lemma FrameFromFields(data: seq<byte>, body: seq<byte>, low: byte, high: byte, crcLow: byte, crcHigh: byte)
    requires |data| >= LINK_SIZE && body == data[LINK_SIZE..]
    requires [data[0], data[1], data[2], data[3], data[4]] == [PROTOCOL_HEAD, low, high, crcLow, crcHigh]
    requires VersionField(low, high) == PROTOCOL_VERSION && |body| == LenField(low, high)
    requires Crc(body) == Word(crcHigh, crcLow)
    ensures data == Frame(body)
  {
    HeaderFromFields(low, high, crcLow, crcHigh, |body|, Crc(body));
    FrameFromHeader(data, body, Header(|body|, Crc(body)));
  }

  lemma FrameFromHeader(data: seq<byte>, body: seq<byte>, header: seq<byte>)
    requires |data| >= LINK_SIZE && body == data[LINK_SIZE..]
    requires header == [data[0], data[1], data[2], data[3], data[4]]
    ensures data == header + body
  {
    assert data[..LINK_SIZE] == header;
  }

  lemma WellFormedIsAccepted(body: seq<byte>)
    requires FIXED_BODY <= |body| <= MAX_DATA_LEN
    ensures ParseCheck(Frame(body)) == 0
  {
    FrameLayout(body);
    AcceptedIffWellFormed(Frame(body));
  }

  /** Corruption of an accepted frame that stays within sixteen consecutive bits of the body is always
      reported as a checksum error. */
  lemma BodyBurstIsRejected(frame: seq<byte>, received: seq<byte>, p: nat)
    requires ParseCheck(frame) == 0 && |received| == |frame| && received != frame
    requires received[..LINK_SIZE] == frame[..LINK_SIZE]
    requires forall i :: 0 <= i < 8 * (|frame| - LINK_SIZE) && !(p <= i < p + 16) ==>
               MessageBits(received[LINK_SIZE..])[i] == MessageBits(frame[LINK_SIZE..])[i]
    ensures ParseCheck(received) == 4
  {
    var body, body' := frame[LINK_SIZE..], received[LINK_SIZE..];
    assert frame == frame[..LINK_SIZE] + body && received == received[..LINK_SIZE] + body';
    BurstIsDetected(body', body, p);
    SameHeader(frame, received);
  }

  lemma SameHeader(frame: seq<byte>, received: seq<byte>)
    requires |frame| == |received| >= LINK_SIZE && received[..LINK_SIZE] == frame[..LINK_SIZE]
    ensures DecodeLinkHeader(received) == DecodeLinkHeader(frame)
  {
    forall i | 0 <= i < LINK_SIZE ensures received[i] == frame[i] {
      assert received[..LINK_SIZE][i] == frame[..LINK_SIZE][i];
    }
  }

  /** In particular any damage to one body byte or to two neighbouring ones. */
  lemma TwoByteDamageIsRejected(frame: seq<byte>, received: seq<byte>, n: nat)
    requires ParseCheck(frame) == 0 && |received| == |frame| && received != frame && LINK_SIZE <= n
    requires forall i :: 0 <= i < |frame| && i != n && i != n + 1 ==> received[i] == frame[i]
    ensures ParseCheck(received) == 4
  {
    var body, body' := frame[LINK_SIZE..], received[LINK_SIZE..];
    assert received[..LINK_SIZE] == frame[..LINK_SIZE];
    assert frame == frame[..LINK_SIZE] + body && received == received[..LINK_SIZE] + body';
    TwoByteErrorIsDetected(body', body, n - LINK_SIZE);
    SameHeader(frame, received);
  }

  /** And any damage to the body that flips an odd number of bits, however far apart. */
  lemma OddDamageIsRejected(frame: seq<byte>, received: seq<byte>)
    requires ParseCheck(frame) == 0 && |received| == |frame| && received[..LINK_SIZE] == frame[..LINK_SIZE]
    requires Differences(MessageBits(received[LINK_SIZE..]), MessageBits(frame[LINK_SIZE..])) % 2 == 1
    ensures ParseCheck(received) == 4
  {
    OddErrorIsDetected(received[LINK_SIZE..], frame[LINK_SIZE..]);
    SameHeader(frame, received);
  }

  // ---------------------------------------------------------------- the builder

  /** The body length as the builder keeps it, in eight bits. */
  function BodyLenByte(len: int): uint8 {
    (FIXED_BODY + len) % U8_SPAN
  }

  lemma BodyLenByteFits(len: nat)
    ensures BodyLenByte(len) <= FIXED_BODY + len
    ensures BodyLenByte(len) == FIXED_BODY + len <==> len <= 247
  {
  }

  /** The frame around a body that is cut at the 8-bit body length. */
  function CutFrame(e: Envelope, payload: seq<byte>): seq<byte> {
    BodyLenByteFits(|payload|);
    Frame(Body(e, payload)[..BodyLenByte(|payload|)])
  }

  /** Refused by the length guard, or let through but too long for the message area, or sent. */
  datatype Outcome = Refused | Overrun | Sent(frame: seq<byte>)

  /** What the builder makes of a payload. */
  function Built(e: Envelope, payload: seq<byte>): Outcome {
    if |payload| > MAX_PAYLOAD_LEN then Refused
    else if LINK_SIZE + FIXED_BODY + |payload| > MAX_DATA_LEN then Overrun
    else Sent(CutFrame(e, payload))
  }

  /** The area has room for the frame of at most 1487 payload bytes, and the guard admits five lengths more. */
  lemma OutcomeByLength(e: Envelope, payload: seq<byte>)
    ensures Built(e, payload).Sent? <==> |payload| <= 1487
    ensures Built(e, payload) == Overrun <==> 1488 <= |payload| <= 1492
    ensures Built(e, payload) == Refused <==> 1493 <= |payload|
  {
  }

  lemma OverrunHappens(e: Envelope)
    ensures |Zeros(1488)| == 1488 && Built(e, Zeros(1488)) == Overrun
  {
  }

  function Zeros(n: nat): seq<byte> { seq(n, _ => 0) }

  /** What is sent for `data` and `len`: a missing buffer leaves the zeroed message area. */
  ghost function Payload(data: array?<byte>, len: nat): seq<byte>
    requires data != null ==> len <= data.Length
    reads data
  {
    if data == null then Zeros(len) else data[..len]
  }

  /** `memcpy` into the message area. */
  method CopyInto(dst: array<byte>, at: nat, src: seq<byte>)
    requires at + |src| <= dst.Length
    modifies dst
    ensures forall k :: 0 <= k < dst.Length ==>
              dst[k] == if at <= k < at + |src| then src[k - at] else old(dst[k])
  {
    for i := 0 to |src|
      invariant forall k :: 0 <= k < dst.Length ==> dst[k] == if at <= k < at + i then src[k - at] else old(dst[k])
    {
      dst[at + i] := src[i];
    }
  }

  method WriteEnvelope(area: array<byte>, e: Envelope)
    requires area.Length == MAX_DATA_LEN
    modifies area
    ensures area[LINK_SIZE..LINK_SIZE + FIXED_BODY] == EnvelopeBytes(e)
    ensures area[LINK_SIZE + FIXED_BODY..] == old(area[LINK_SIZE + FIXED_BODY..])
  {
    var pFrame := LINK_SIZE;
    CopyInto(area, pFrame, [e.src, e.srcSub, e.dest, e.destSub]);
    pFrame := pFrame + 4;
    CopyInto(area, pFrame, [e.transportType, e.frameId]);
    pFrame := pFrame + 2;
    area[pFrame] := e.cmdGroup;
    pFrame := pFrame + 1;
    area[pFrame] := e.cmdId;
    assert area[5] == e.src && area[6] == e.srcSub && area[7] == e.dest && area[8] == e.destSub;
    assert area[9] == e.transportType && area[10] == e.frameId && area[11] == e.cmdGroup && area[12] == e.cmdId;
    EnvelopeInPlace(area[..], e);
    assert area[LINK_SIZE..LINK_SIZE + FIXED_BODY] == area[..][LINK_SIZE..LINK_SIZE + FIXED_BODY];
  }

  lemma EnvelopeInPlace(a: seq<byte>, e: Envelope)
    requires |a| >= LINK_SIZE + FIXED_BODY
    requires a[5] == e.src && a[6] == e.srcSub && a[7] == e.dest && a[8] == e.destSub
    requires a[9] == e.transportType && a[10] == e.frameId && a[11] == e.cmdGroup && a[12] == e.cmdId
    ensures a[LINK_SIZE..LINK_SIZE + FIXED_BODY] == EnvelopeBytes(e)
  {
    assert a[5..13] == [a[5], a[6], a[7], a[8], a[9], a[10], a[11], a[12]];
  }

  /** Payload bytes that have room in the message area. */
  function Room(len: nat): (m: nat)
    ensures m <= len
  {
    if len <= MAX_DATA_LEN - LINK_SIZE - FIXED_BODY then len else MAX_DATA_LEN - LINK_SIZE - FIXED_BODY
  }

  /** Layers 2 to 4 of the frame, behind the link header. */
  method WriteBody(area: array<byte>, e: Envelope, data: array?<byte>, len: nat)
    requires data != null ==> len <= data.Length && Room(len) == len
    requires area.Length == MAX_DATA_LEN
    requires data != area && area[LINK_SIZE + FIXED_BODY..] == Zeros(MAX_DATA_LEN - LINK_SIZE - FIXED_BODY)
    modifies area
    ensures area[LINK_SIZE..LINK_SIZE + FIXED_BODY + Room(len)] == Body(e, Payload(data, len)[..Room(len)])
  {
    WriteEnvelope(area, e);
    ghost var rest := area[LINK_SIZE + FIXED_BODY..];
    var pFrame := LINK_SIZE + FIXED_BODY;
    if data != null && len > 0 {
      CopyInto(area, pFrame, data[..len]);
    } else {
      assert area[pFrame..pFrame + Room(len)] == rest[..Room(len)] == Zeros(Room(len));
    }
    assert area[pFrame..pFrame + Room(len)] == Payload(data, len)[..Room(len)];
    JoinSlices(area[..], LINK_SIZE, pFrame, pFrame + Room(len));
  }

  lemma JoinSlices(a: seq<byte>, i: nat, j: nat, k: nat)
    requires i <= j <= k <= |a|
    ensures a[i..k] == a[i..j] + a[j..k]
  {
  }

  method PutHeader(area: array<byte>, header: seq<byte>)
    requires |header| == LINK_SIZE <= area.Length
    modifies area
    ensures area[..LINK_SIZE] == header && area[LINK_SIZE..] == old(area[LINK_SIZE..])
  {
    CopyInto(area, 0, header);
  }

  lemma HeaderThenBody(a: seq<byte>, body: seq<byte>, header: seq<byte>)
    requires |header| == LINK_SIZE && LINK_SIZE + |body| <= |a|
    requires a[..LINK_SIZE] == header && a[LINK_SIZE..][..|body|] == body
    ensures a[..LINK_SIZE + |body|] == header + body
  {
  }

  /** The link header, with the checksum of the `bodyLen` bytes behind it. */
  method WriteHeader(area: array<byte>, bodyLen: nat)
    requires area.Length == MAX_DATA_LEN && LINK_SIZE + bodyLen <= MAX_DATA_LEN
    modifies area
    ensures area[..LINK_SIZE + bodyLen] == Frame(old(area[LINK_SIZE..LINK_SIZE + bodyLen]))
  {
    ghost var body := area[LINK_SIZE..LINK_SIZE + bodyLen];
    assert body == area[LINK_SIZE..][..bodyLen];
    var check := KitCheckCrc16(area, LINK_SIZE, bodyLen);
    PutHeader(area, Header(bodyLen, check));
    HeaderThenBody(area[..], body, Header(bodyLen, check));
  }

  /** A message of 1500 bytes and its length. `overran` reports a payload that the guard lets through and that does
      not fit behind the headers: the copy then leaves the message area, and the message means nothing. Without a
      buffer nothing is copied. */
  method CreateSendFrameQueueItem(e: Envelope, data: array?<byte>, len: int)
    returns (msgLen: nat, msg: seq<byte>, overran: bool)
    requires data != null && 0 <= len <= MAX_PAYLOAD_LEN ==> len <= data.Length
    ensures |msg| == MAX_DATA_LEN && msgLen <= MAX_DATA_LEN
    ensures overran <==> data != null && 1488 <= len <= 1492
    ensures !overran && 0 <= len <= MAX_PAYLOAD_LEN ==> msg[..msgLen] == CutFrame(e, Payload(data, len))
    ensures !(0 <= len <= MAX_PAYLOAD_LEN) ==> msgLen == 0 && msg == Zeros(MAX_DATA_LEN)
    ensures data != null && 0 <= len <= data.Length ==>
              match Built(e, data[..len])
              case Refused => msgLen == 0
              case Overrun => overran
              case Sent(frame) => !overran && msg[..msgLen] == frame
  {
    var area := new byte[MAX_DATA_LEN](_ => 0);
    var dataBodyLen := BodyLenByte(len);
    overran := false;
    if len < 0 || len > MAX_PAYLOAD_LEN {
      assert area[..] == Zeros(MAX_DATA_LEN);
      return 0, area[..], false;
    }
    if data != null && LINK_SIZE + FIXED_BODY + len > MAX_DATA_LEN {
      return 0, area[..], true;
    }
    BodyLenByteFits(len);
    assert area[LINK_SIZE + FIXED_BODY..] == Zeros(MAX_DATA_LEN - LINK_SIZE - FIXED_BODY);
    WriteBody(area, e, data, len);
    CutOfRoom(e, Payload(data, len), area[..], dataBodyLen);
    WriteHeader(area, dataBodyLen);
    msgLen := LINK_SIZE + dataBodyLen;
    msg := area[..];
    assert msg[..msgLen] == area[..msgLen];
  }

  lemma CutOfRoom(e: Envelope, payload: seq<byte>, area: seq<byte>, n: nat)
    requires n <= FIXED_BODY + Room(|payload|) && |area| == MAX_DATA_LEN
    requires area[LINK_SIZE..LINK_SIZE + FIXED_BODY + Room(|payload|)] == Body(e, payload[..Room(|payload|)])
    ensures area[LINK_SIZE..LINK_SIZE + n] == Body(e, payload)[..n]
  {
    var m := Room(|payload|);
    assert area[LINK_SIZE..LINK_SIZE + n] == area[LINK_SIZE..LINK_SIZE + FIXED_BODY + m][..n];
    assert Body(e, payload[..m]) == Body(e, payload)[..FIXED_BODY + m];
  }

  // ---------------------------------------------------------------- byte by byte

  lemma PackedValue(x: byte)
    requires x < 8
    ensures ((x << 5) | 2) as int == 32 * (x as int) + 2
  {
  }

  /** The five bytes of the link header, and the body behind them. */
  lemma FrameInBytes(body: seq<byte>)
    requires |body| < 2048
    ensures var f := Frame(body);
      && |f| == 5 + |body| && f[5..] == body
      && f[0] == 0xA5 && f[1] as int == 32 * (|body| % 8) + 2 && f[2] as int == |body| / 8
      && ((f[4] as bv16) << 8) | (f[3] as bv16) == Crc(body)
  {
    ValueOfByte(ByteOf(|body| % 8));
    PackedValue(ByteOf(|body| % 8));
    WordOfItsHalves(Crc(body));
  }

  lemma HeadFields(low: byte, high: byte)
    ensures VersionField(low, high) as int == low as int % 32
    ensures LenField(low, high) == low as int / 32 + 8 * (high as int)
  {
    FieldsOfBytes(low, high);
    HeadParts(low);
  }

  lemma HeadParts(low: byte)
    ensures (low & 0x1F) as int == low as int % 32 && (low >> 5) as int == low as int / 32
  {
  }

  /** The codes of the checker in bytes, and in the order in which they are given. */
  lemma CodeInBytes(data: seq<byte>)
    ensures ParseCheck(data) == 1 <==> |data| < 13
    ensures |data| >= 13 ==>
      var badHead := data[0] != 0xA5 || data[1] as int % 32 != 2;
      var len := data[1] as int / 32 + 8 * (data[2] as int);
      var badLen := len > 1500 || len != |data| - 5;
      var badSum := ((data[4] as bv16) << 8) | (data[3] as bv16) != Crc(data[5..]);
      ParseCheck(data) == if badHead then 2 else if badLen then 3 else if badSum then 4 else 0
  {
    if |data| >= 13 {
      HeadFields(data[1], data[2]);
    }
  }

  // ---------------------------------------------------------------- builder and checker together

  /** The fields as the receiving side reads them out of an accepted frame. */
  function EnvelopeOf(frame: seq<byte>): Envelope
    requires |frame| >= LINK_SIZE + FIXED_BODY
  {
    Envelope(frame[5], frame[6], frame[7], frame[8], frame[9], frame[10], frame[11], frame[12])
  }

  function PayloadOf(frame: seq<byte>): seq<byte>
    requires |frame| >= LINK_SIZE + FIXED_BODY
  {
    frame[LINK_SIZE + FIXED_BODY..]
  }

  lemma FieldsOfCutBody(e: Envelope, payload: seq<byte>, n: nat, f: seq<byte>)
    requires FIXED_BODY <= n <= FIXED_BODY + |payload| && |f| == LINK_SIZE + n
    requires f[LINK_SIZE..] == Body(e, payload)[..n]
    ensures EnvelopeOf(f) == e && PayloadOf(f) == payload[..n - FIXED_BODY]
  {
    assert f[LINK_SIZE..] == EnvelopeBytes(e) + payload[..n - FIXED_BODY];
    assert forall i :: 0 <= i < FIXED_BODY ==> f[LINK_SIZE + i] == EnvelopeBytes(e)[i];
    assert f[5] == e.src && f[6] == e.srcSub && f[7] == e.dest && f[8] == e.destSub;
    assert f[9] == e.transportType && f[10] == e.frameId && f[11] == e.cmdGroup && f[12] == e.cmdId;
  }

  lemma ShortFrameIsRejected(body: seq<byte>)
    requires |body| < FIXED_BODY
    ensures ParseCheck(Frame(body)) == 1
  {
  }

  /** What the receiver makes of a sent frame: it is too short when the 8-bit length wraps to less than 8, and
      otherwise accepted with the payload cut to that length. */
  lemma SentIsReceived(e: Envelope, payload: seq<byte>)
    ensures var f := CutFrame(e, payload); var n := BodyLenByte(|payload|);
      && ParseCheck(f) == (if n < FIXED_BODY then 1 else 0)
      && (n >= FIXED_BODY ==>
            |f| == LINK_SIZE + n && EnvelopeOf(f) == e && PayloadOf(f) == payload[..n - FIXED_BODY])
  {
    var n := BodyLenByte(|payload|);
    BodyLenByteFits(|payload|);
    var body := Body(e, payload)[..n];
    if n < FIXED_BODY {
      ShortFrameIsRejected(body);
    } else {
      WellFormedIsAccepted(body);
      FieldsOfCutBody(e, payload, n, Frame(body));
    }
  }

  /** The fields of the envelope in a sent frame. */
  lemma SentInBytes(e: Envelope, payload: seq<byte>)
    requires Built(e, payload).Sent? && (8 + |payload|) % 256 >= 8
    ensures var f := Built(e, payload).frame;
      && |f| == 5 + (8 + |payload|) % 256
      && f[5] == e.src && f[6] == e.srcSub && f[7] == e.dest && f[8] == e.destSub
      && f[9] == e.transportType && f[10] == e.frameId && f[11] == e.cmdGroup && f[12] == e.cmdId
      && f[13..] == payload[..(8 + |payload|) % 256 - 8]
  {
    SentIsReceived(e, payload);
  }

  /** Builder and receiver together, for every payload length. */
  lemma BuiltIsReceived(e: Envelope, payload: seq<byte>)
    ensures match Built(e, payload)
      case Refused => |payload| > 1492
      case Overrun => 1487 < |payload| <= 1492
      case Sent(f) =>
        var n := BodyLenByte(|payload|);
        && |payload| <= 1487
        && ParseCheck(f) == (if n < FIXED_BODY then 1 else 0)
        && (n >= FIXED_BODY ==>
              |f| == LINK_SIZE + n && EnvelopeOf(f) == e && PayloadOf(f) == payload[..n - FIXED_BODY])
  {
    SentIsReceived(e, payload);
  }

  /** A frame is sent that the receiver accepts and reads back as it was given. */
  predicate RoundTrips(e: Envelope, payload: seq<byte>) {
    match Built(e, payload)
    case Sent(f) => ParseCheck(f) == 0 && EnvelopeOf(f) == e && PayloadOf(f) == payload
    case _ => false
  }

  /** The round trip works exactly for payloads of at most 247 bytes. */
  lemma RoundTripIffShort(e: Envelope, payload: seq<byte>)
    ensures RoundTrips(e, payload) <==> |payload| <= 247
  {
    SentIsReceived(e, payload);
    BodyLenByteFits(|payload|);
    if RoundTrips(e, payload) {
      assert |payload| == BodyLenByte(|payload|) - FIXED_BODY;
    }
  }
}
