/** Read requests made from the merged groups. */
module ModbusRequest {
  import opened Bytes
  import opened Crc16
  import opened MachineInts
  import opened ModbusMerge
  import opened ModbusPlan
  import opened ModbusPlanProperties

  /** The limit that the planner is called with. */
  const MAX_REG_NUM := 30

  datatype Request = Request(unitId: byte, funcCode: byte, startAddr: int, quantity: int)

  /** A big-endian word. */
  function WordOf(high: byte, low: byte): int {
    256 * (high as int) + low as int
  }

  /** How a server reads the six bytes of a read request: two big-endian words after unit and function. */
  function RequestOf(pdu: seq<byte>): Request
    requires |pdu| == 6
  {
    Request(pdu[0], pdu[1], WordOf(pdu[2], pdu[3]), WordOf(pdu[4], pdu[5]))
  }

  /** The request put together for a group: the address loses what is above 16 bits, the count what is above 8. */
  function Sent(uId: byte, funcCode: byte, group: ReqGroup): Request {
    Request(uId, funcCode, group.startAddr % 0x1_0000, (group.endAddr - group.startAddr + 1) % 0x100)
  }

  /** A word kept in 16 bits, high byte first. */
  method BytesOf(n: uint16) returns (high: byte, low: byte)
    ensures WordOf(high, low) == n
    ensures high as int == n / 0x100 && low as int == n % 0x100
  {
    high, low := ByteOf(n / 0x100), ByteOf(n % 0x100);
  }

  lemma RequestOfBytes(pdu: seq<byte>, r: Request)
    requires |pdu| == 6 && pdu[0] == r.unitId && pdu[1] == r.funcCode
    requires WordOf(pdu[2], pdu[3]) == r.startAddr && WordOf(pdu[4], pdu[5]) == r.quantity
    ensures RequestOf(pdu) == r
  {
  }

  /** Unit, function, start address with the high byte first, and register count in one byte behind a zero. */
  predicate InBytes(pdu: seq<byte>, uId: byte, funcCode: byte, startAddr: int, endAddr: int) {
    && |pdu| == 6 && pdu[0] == uId && pdu[1] == funcCode
    && pdu[2] as int == startAddr / 256 % 256 && pdu[3] as int == startAddr % 256
    && pdu[4] == 0 && pdu[5] as int == (endAddr - startAddr + 1) % 256
  }

  /** The six bytes of a read request. */
  method RequestBytes(uId: byte, funcCode: byte, group: ReqGroup) returns (pdu: seq<byte>)
    ensures |pdu| == 6 && RequestOf(pdu) == Sent(uId, funcCode, group)
    ensures InBytes(pdu, uId, funcCode, group.startAddr, group.endAddr)
  {
    var count: uint8 := (group.endAddr - group.startAddr + 1) % 0x100;
    var startHigh, startLow := BytesOf(group.startAddr % 0x1_0000);
    var countHigh, countLow := BytesOf(count);
    pdu := [uId, funcCode, startHigh, startLow, countHigh, countLow];
    AddressBytes(group.startAddr);
    ByteIsItsValue(countHigh, 0);
    RequestOfBytes(pdu, Sent(uId, funcCode, group));
  }

  lemma AddressBytes(n: int)
    ensures n % 0x1_0000 / 0x100 == n / 256 % 256 && n % 0x1_0000 % 0x100 == n % 256
  {
    var q, r := n / 0x1_0000, n % 0x1_0000;
    assert n == 0x1_0000 * q + r;
    assert n / 256 == 256 * q + r / 256;
  }

  method PutRequest(frame: array<byte>, at: nat, pdu: seq<byte>) returns (idx: nat)
    requires |pdu| == 6 && at + 6 <= frame.Length
    modifies frame
    ensures idx == 6 && frame[at..at + idx] == pdu
    ensures frame[..at] == old(frame[..at]) && frame[at + idx..] == old(frame[at + idx..])
  {
    frame[at], frame[at + 1], frame[at + 2] := pdu[0], pdu[1], pdu[2];
    frame[at + 3], frame[at + 4], frame[at + 5] := pdu[3], pdu[4], pdu[5];
    idx := 6;
  }

  /** A Modbus TCP frame: the length of the request goes into the header, its first four bytes are filled in later. */
  method BuildTcpRequest(frame: array<byte>, uId: byte, funcCode: byte, group: ReqGroup) returns (frameLen: nat)
    requires frame.Length == 256
    modifies frame
    ensures frameLen == 12 && RequestOf(frame[6..12]) == Sent(uId, funcCode, group)
    ensures WordOf(frame[4], frame[5]) == |frame[6..frameLen]|
    ensures frame[4] == 0 && frame[5] == 6
    ensures frame[6] == uId && frame[7] == funcCode
    ensures frame[8] as int == group.startAddr / 256 % 256 && frame[9] as int == group.startAddr % 256
    ensures frame[10] == 0 && frame[11] as int == (group.endAddr - group.startAddr + 1) % 256
    ensures frame[..4] == old(frame[..4]) && frame[12..] == old(frame[12..])
  {
    var pdu := RequestBytes(uId, funcCode, group);
    ghost var first := frame[..4];
    var idx := PutRequest(frame, 6, pdu);
    ghost var rest := frame[12..];
    assert frame[..6][..4] == first;
    frameLen := 6 + idx;
    var high, low := BytesOf(idx);
    frame[4], frame[5] := high, low;
    ByteIsItsValue(high, 0);
    ByteIsItsValue(low, 6);
    assert frame[6..12] == pdu && frame[12..] == rest;
    assert forall i :: 0 <= i < 6 ==> frame[6 + i] == pdu[i];
    assert frame[6 + 0] == pdu[0] && frame[6 + 1] == pdu[1] && frame[6 + 2] == pdu[2];
    assert frame[6 + 3] == pdu[3] && frame[6 + 4] == pdu[4] && frame[6 + 5] == pdu[5];
  }

  /** A Modbus RTU frame: request and checksum, which a receiver checks to zero. */
  method BuildRtuRequest(frame: array<byte>, uId: byte, funcCode: byte, group: ReqGroup) returns (frameLen: nat)
    requires frame.Length == 256
    modifies frame
    ensures frameLen == 8 && RequestOf(frame[..6]) == Sent(uId, funcCode, group)
    ensures frame[0] == uId && frame[1] == funcCode
    ensures frame[2] as int == group.startAddr / 256 % 256 && frame[3] as int == group.startAddr % 256
    ensures frame[4] == 0 && frame[5] as int == (group.endAddr - group.startAddr + 1) % 256
    ensures frame[6] == LowByte(Crc(frame[..6])) && frame[7] == HighByte(Crc(frame[..6]))
    ensures Crc(frame[..frameLen]) == 0
    ensures frame[8..] == old(frame[8..])
  {
    var pdu := RequestBytes(uId, funcCode, group);
    var idx := PutRequest(frame, 0, pdu);
    assert frame[..6] == pdu;
    assert frame[8..] == frame[6..][2..];
    KitAppendCrc16(frame, idx);
    frameLen := idx + 2;
    assert forall i :: 0 <= i < 6 ==> frame[i] == frame[..6][i];
  }

  /** With the limit in use nothing is lost: the request names exactly the registers of the group, at most 37, of the
      125 that section 6.3 of MODBUS Application Protocol Specification V1.1b3 allows. */
  lemma RequestIsExact(ps: seq<Point>, g: nat, uId: byte, funcCode: byte)
    requires ValidTypes(ps) && g < |Plan(ps, MAX_REG_NUM)|
    ensures var group := Plan(ps, MAX_REG_NUM)[g];
      && Sent(uId, funcCode, group)
         == Request(uId, funcCode, group.startAddr, group.endAddr - group.startAddr + 1)
      && 1 <= group.endAddr - group.startAddr + 1 <= MAX_REG_NUM + 7 == 37 <= 125
  {
    EveryGroupIsBounded(ps, MAX_REG_NUM, g);
  }

  predicate Asks(r: Request, p: Point) {
    r.startAddr <= p.regAddr && EndOf(p) <= r.startAddr + r.quantity
  }

  /** The request of its group asks for every register of a point exactly when the point does not end beyond the last
      point of the group. */
  lemma AskedIffWithinLast(ps: seq<Point>, k: nat, uId: byte, funcCode: byte)
    requires ValidTypes(ps) && k < |ps|
    ensures GroupOf(ps, MAX_REG_NUM, k) < |Plan(ps, MAX_REG_NUM)|
    ensures Asks(Sent(uId, funcCode, Plan(ps, MAX_REG_NUM)[GroupOf(ps, MAX_REG_NUM, k)]), ps[k])
            <==> EndOf(ps[k]) <= EndOf(ps[Last(ps, MAX_REG_NUM, k)])
  {
    CoveredIffWithinLast(ps, MAX_REG_NUM, k);
    RequestIsExact(ps, GroupOf(ps, MAX_REG_NUM, k), uId, funcCode);
    GroupWidthIsBounded(ps, MAX_REG_NUM, k);
  }

  /** In particular without overhangs all points are asked for. */
  lemma EveryPointIsAsked(ps: seq<Point>, k: nat, uId: byte, funcCode: byte)
    requires ValidTypes(ps) && NoOverhang(ps) && k < |ps|
    ensures GroupOf(ps, MAX_REG_NUM, k) < |Plan(ps, MAX_REG_NUM)|
    ensures Asks(Sent(uId, funcCode, Plan(ps, MAX_REG_NUM)[GroupOf(ps, MAX_REG_NUM, k)]), ps[k])
  {
    EndsClimb(ps, MAX_REG_NUM, k);
    AskedIffWithinLast(ps, k, uId, funcCode);
  }

  // ---------------------------------------------------------------- the request list

  /** The requests of one function code, group by group. */
  function RequestsOfPlan(uId: byte, funcCode: byte, plan: seq<ReqGroup>): seq<Request> {
    if plan == [] then []
    else RequestsOfPlan(uId, funcCode, plan[..|plan| - 1]) + [Sent(uId, funcCode, plan[|plan| - 1])]
  }

  /** All requests, function code by function code. */
  function AllRequests(uId: byte, funcCodes: seq<byte>, plans: seq<seq<ReqGroup>>): seq<Request>
    requires |funcCodes| == |plans|
  {
    if plans == [] then []
    else
      var n := |plans| - 1;
      AllRequests(uId, funcCodes[..n], plans[..n]) + RequestsOfPlan(uId, funcCodes[n], plans[n])
  }

  /** The frame asks for `r` in its protocol. */
  predicate CarriesRequest(isTcp: bool, frame: seq<byte>, r: Request) {
    if isTcp then |frame| == 12 && RequestOf(frame[6..12]) == r && WordOf(frame[4], frame[5]) == 6
    else |frame| == 8 && RequestOf(frame[..6]) == r && Crc(frame) == 0
  }

  predicate CarryRequests(isTcp: bool, list: seq<seq<byte>>, rs: seq<Request>) {
    |list| == |rs| && forall j :: 0 <= j < |rs| ==> CarriesRequest(isTcp, list[j], rs[j])
  }

  method BuildRequest(isTcp: bool, uId: byte, funcCode: byte, group: ReqGroup) returns (frame: seq<byte>)
    ensures CarriesRequest(isTcp, frame, Sent(uId, funcCode, group))
  {
    var item := new byte[256](_ => 0);
    var frameLen: nat;
    if isTcp {
      frameLen := BuildTcpRequest(item, uId, funcCode, group);
    } else {
      frameLen := BuildRtuRequest(item, uId, funcCode, group);
    }
    frame := item[..frameLen];
    assert isTcp ==> frame[6..12] == item[6..12];
    assert !isTcp ==> frame[..6] == item[..6];
  }

  method AppendPlan(isTcp: bool, uId: byte, funcCode: byte, plan: seq<ReqGroup>,
                    list: seq<seq<byte>>, ghost rs: seq<Request>)
    returns (longer: seq<seq<byte>>)
    requires CarryRequests(isTcp, list, rs)
    ensures CarryRequests(isTcp, longer, rs + RequestsOfPlan(uId, funcCode, plan))
  {
    longer := list;
    for k := 0 to |plan|
      invariant CarryRequests(isTcp, longer, rs + RequestsOfPlan(uId, funcCode, plan[..k]))
    {
      assert plan[..k + 1][..k] == plan[..k];
      var frame := BuildRequest(isTcp, uId, funcCode, plan[k]);
      longer := longer + [frame];
    }
    assert plan[..|plan|] == plan;
  }

  /** The list holds one frame for each group of each function code, in order, as many as were counted; it is refused
      when there is no group at all. */
  method InitReqModbus(isTcp: bool, uId: byte, funcCodes: seq<byte>, plans: seq<seq<ReqGroup>>)
    returns (ret: int, list: seq<seq<byte>>)
    requires |funcCodes| == |plans| && |AllRequests(uId, funcCodes, plans)| < U16_SPAN
    ensures CarryRequests(isTcp, list, AllRequests(uId, funcCodes, plans))
    ensures ret == if list == [] then 1 else 0
  {
    var repCount: int := 0;
    for i := 0 to |plans|
      invariant repCount == |AllRequests(uId, funcCodes[..i], plans[..i])|
    {
      UpToNext(uId, funcCodes, plans, i);
      repCount := repCount + |plans[i]|;
    }
    assert funcCodes[..|plans|] == funcCodes && plans[..|plans|] == plans;
    list := [];
    if repCount <= 0 {
      return 1, [];
    }
    for i := 0 to |plans|
      invariant CarryRequests(isTcp, list, AllRequests(uId, funcCodes[..i], plans[..i]))
    {
      UpToNext(uId, funcCodes, plans, i);
      list := AppendPlan(isTcp, uId, funcCodes[i], plans[i], list, AllRequests(uId, funcCodes[..i], plans[..i]));
    }
    ret := 0;
  }

  lemma UpToNext(uId: byte, funcCodes: seq<byte>, plans: seq<seq<ReqGroup>>, i: nat)
    requires i < |funcCodes| == |plans|
    ensures AllRequests(uId, funcCodes[..i + 1], plans[..i + 1])
            == AllRequests(uId, funcCodes[..i], plans[..i]) + RequestsOfPlan(uId, funcCodes[i], plans[i])
    ensures |RequestsOfPlan(uId, funcCodes[i], plans[i])| == |plans[i]|
  {
    assert funcCodes[..i + 1][..i] == funcCodes[..i] && plans[..i + 1][..i] == plans[..i];
    OneEach(uId, funcCodes[i], plans[i]);
  }

  lemma {:induction false} OneEach(uId: byte, funcCode: byte, plan: seq<ReqGroup>)
    ensures |RequestsOfPlan(uId, funcCode, plan)| == |plan|
    ensures forall k :: 0 <= k < |plan| ==> RequestsOfPlan(uId, funcCode, plan)[k] == Sent(uId, funcCode, plan[k])
  {
    if plan != [] {
      OneEach(uId, funcCode, plan[..|plan| - 1]);
    }
  }

  lemma {:induction false} RequestsGrow(uId: byte, funcCodes: seq<byte>, plans: seq<seq<ReqGroup>>, i: nat, j: nat)
    requires i <= j <= |funcCodes| == |plans|
    ensures AllRequests(uId, funcCodes[..i], plans[..i]) <= AllRequests(uId, funcCodes[..j], plans[..j])
  {
    if i < j {
      RequestsGrow(uId, funcCodes, plans, i, j - 1);
      UpToNext(uId, funcCodes, plans, j - 1);
    }
  }

  lemma EntryOfPrefix(all: seq<Request>, upTo: seq<Request>, before: seq<Request>, mine: seq<Request>, k: nat)
    requires upTo == before + mine && upTo <= all && k < |mine|
    ensures |before| + k < |all| && all[|before| + k] == mine[k]
  {
    assert all[|before| + k] == upTo[|before| + k];
  }

  /** Where the request of group `k` of function code `i` stands in the list. */
  lemma RequestStands(uId: byte, funcCodes: seq<byte>, plans: seq<seq<ReqGroup>>, i: nat, k: nat)
    requires i < |funcCodes| == |plans| && k < |plans[i]|
    ensures var at := |AllRequests(uId, funcCodes[..i], plans[..i])| + k;
      at < |AllRequests(uId, funcCodes, plans)|
      && AllRequests(uId, funcCodes, plans)[at] == Sent(uId, funcCodes[i], plans[i][k])
  {
    RequestsGrow(uId, funcCodes, plans, i + 1, |plans|);
    assert funcCodes[..|plans|] == funcCodes && plans[..|plans|] == plans;
    UpToNext(uId, funcCodes, plans, i);
    OneEach(uId, funcCodes[i], plans[i]);
    EntryOfPrefix(AllRequests(uId, funcCodes, plans), AllRequests(uId, funcCodes[..i + 1], plans[..i + 1]),
                  AllRequests(uId, funcCodes[..i], plans[..i]), RequestsOfPlan(uId, funcCodes[i], plans[i]), k);
  }
}
