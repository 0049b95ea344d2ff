/** Taking the points out of the answer to a planned read request. */
module ModbusDecode {
  import opened Bytes
  import opened MachineInts
  import opened ModbusMerge
  import opened ModbusPlan
  import opened ModbusPlanProperties
  import opened ModbusRequest

  /** Largest offset plus widest value: every read below stays in a buffer of this size. */
  const READ_AREA := 263

  /** The offset where a point was read, and the bytes found there. */
  datatype Reading = Reading(point: Point, pos: int, raw: seq<byte>)

  /** Bytes taken by the decoder; an undefined type is stored without moving on. */
  function Width(t: DataType): (w: nat)
    ensures w <= 8
  {
    match t
    case Uint8 | Int8 => 1
    case Uint16 | Int16 => 2
    case Uint32 | Int32 | Float32 => 4
    case Uint64 | Int64 | Float64 => 8
    case Undefined => 0
  }

  /** The decoder and the planner agree on the size of the value. */
  predicate Wide(t: DataType) {
    Width(t) == 2 * CalcRegister(t)
  }

  /** What the decoder reads from point `idx` and offset `pos` on; the offset wraps at 256. */
  function Readings(ps: seq<Point>, idx: nat, pos: uint8, len: int, data: seq<byte>): seq<Reading>
    requires |data| >= READ_AREA
    decreases |ps| - idx
  {
    if pos >= len || idx >= |ps| then []
    else
      var w := Width(ps[idx].dataType);
      [Reading(ps[idx], pos, data[pos..pos + w])] + Readings(ps, idx + 1, (pos + w) % U8_SPAN, len, data)
  }

  /** First point at an address, or the number of points. */
  function FindAddr(ps: seq<Point>, addr: int, from: nat): (i: nat)
    requires from <= |ps|
    ensures from <= i <= |ps| && (forall k :: from <= k < i ==> ps[k].regAddr != addr)
    ensures i < |ps| ==> ps[i].regAddr == addr
    decreases |ps| - from
  {
    if from == |ps| || ps[from].regAddr == addr then from else FindAddr(ps, addr, from + 1)
  }

  /** The readings stored for the answer to a request that started at `startAddr`. */
  function Decoded(ps: seq<Point>, startAddr: int, len: int, data: seq<byte>): seq<Reading>
    requires |data| >= READ_AREA
  {
    Readings(ps, FindAddr(ps, startAddr, 0), 0, len, data)
  }

  lemma ReadingTurn(done: seq<Reading>, ps: seq<Point>, idx: nat, pos: uint8, len: int, data: seq<byte>)
    requires |data| >= READ_AREA && pos < len && idx < |ps|
    ensures var w := Width(ps[idx].dataType);
      done + Readings(ps, idx, pos, len, data)
      == done + [Reading(ps[idx], pos, data[pos..pos + w])] + Readings(ps, idx + 1, (pos + w) % U8_SPAN, len, data)
  {
  }

  /** The decoding loop, from point `first` on. */
  method ParsePoints(ps: seq<Point>, first: uint16, len: uint16, data: seq<byte>) returns (stored: seq<Reading>)
    requires first <= |ps| < U16_SPAN && |data| >= READ_AREA
    ensures stored == Readings(ps, first, 0, len, data)
  {
    stored := [];
    var pointIdx, parsePos: uint8 := first, 0;
    while parsePos < len
      invariant first <= pointIdx <= |ps|
      invariant stored + Readings(ps, pointIdx, parsePos, len, data) == Readings(ps, first, 0, len, data)
      decreases |ps| - pointIdx
    {
      if pointIdx >= |ps| {
        return;
      }
      var point := ps[pointIdx];
      var w := Width(point.dataType);
      ReadingTurn(stored, ps, pointIdx, parsePos, len, data);
      stored := stored + [Reading(point, parsePos, data[parsePos..parsePos + w])];
      parsePos := (parsePos + w) % U8_SPAN;
      pointIdx := pointIdx + 1;
    }
  }

  method MbParseFunc03Fun04Respond(ps: seq<Point>, startAddr: uint16, len: uint16, data: seq<byte>)
    returns (stored: seq<Reading>)
    requires |ps| < U16_SPAN && |data| >= READ_AREA
    ensures stored == Decoded(ps, startAddr, len, data)
  {
    var i: uint16 := 0;
    while i < |ps| && ps[i].regAddr != startAddr
      invariant i <= |ps|
      invariant FindAddr(ps, startAddr, 0) == FindAddr(ps, startAddr, i)
    {
      i := i + 1;
    }
    if i == |ps| {
      return [];
    }
    stored := ParsePoints(ps, i, len, data);
  }

  /** The offset behind a reading, in the eight bits it is kept in. */
  function Behind(r: Reading): int {
    (r.pos + SizeInBits(r.point.dataType) / 8) % 256
  }

  /** A reading starts inside the answer and holds as many bytes as its type is wide. */
  ghost predicate ReadsWhole(r: Reading, len: int, data: seq<byte>) {
    && 0 <= r.pos < 256 && r.pos < len && r.pos + SizeInBits(r.point.dataType) / 8 <= |data|
    && r.raw == data[r.pos..r.pos + SizeInBits(r.point.dataType) / 8]
  }

  lemma OneReading(ps: seq<Point>, idx: nat, pos: uint8, len: int, data: seq<byte>, r: Reading, rest: seq<Reading>)
    requires |data| >= READ_AREA && pos < len && idx < |ps|
    requires r == Reading(ps[idx], pos, data[pos..pos + Width(ps[idx].dataType)])
    requires rest == Readings(ps, idx + 1, Behind(r), len, data)
    ensures Readings(ps, idx, pos, len, data) == [r] + rest && ReadsWhole(r, len, data)
    ensures if rest == [] then Behind(r) >= len || idx + 1 == |ps| else rest[0].pos == Behind(r)
  {
  }

  /** The decoder without its recursion: reading `k` is of the `k`-th point behind the first; each starts where the one
      before ended, modulo 256; the last one may reach beyond the answer; and decoding stops where the answer ends or
      the points do. */
  lemma {:induction false} ReadingAt(ps: seq<Point>, idx: nat, pos: uint8, len: int, data: seq<byte>, k: nat,
                                     rs: seq<Reading>)
    requires |data| >= READ_AREA && rs == Readings(ps, idx, pos, len, data) && k < |rs|
    ensures idx + k < |ps| && rs[k].point == ps[idx + k] && ReadsWhole(rs[k], len, data) && rs[0].pos == pos
    ensures if k + 1 < |rs| then rs[k + 1].pos == Behind(rs[k]) else Behind(rs[k]) >= len || idx + k + 1 == |ps|
    decreases k
  {
    var r := Reading(ps[idx], pos, data[pos..pos + Width(ps[idx].dataType)]);
    var rest := Readings(ps, idx + 1, Behind(r), len, data);
    OneReading(ps, idx, pos, len, data, r, rest);
    if k > 0 {
      ReadingAt(ps, idx + 1, Behind(r), len, data, k - 1, rest);
    }
  }

  /** Nothing is stored exactly when no point has the requested address, or the answer is empty. */
  lemma DecodedIsEmptyIff(ps: seq<Point>, startAddr: int, len: int, data: seq<byte>)
    requires |data| >= READ_AREA
    ensures Decoded(ps, startAddr, len, data) == [] <==>
      len <= 0 || forall i :: 0 <= i < |ps| ==> ps[i].regAddr != startAddr
  {
  }

  // ---------------------------------------------------------------- alignment

  /** Points `f` to `l` follow each other without gaps or overlaps. */
  ghost predicate Contiguous(ps: seq<Point>, f: nat, l: nat) {
    && f <= l < |ps|
    && (forall k :: f <= k <= l ==> ps[k].dataType != Undefined)
    && (forall k :: f <= k < l ==> EndOf(ps[k]) == ps[k + 1].regAddr)
  }

  /** Point `k` read from exactly its own registers, in an answer that starts at `startAddr`. */
  ghost predicate ReadInPlace(r: Reading, p: Point, startAddr: int, data: seq<byte>) {
    && r.point == p && r.pos == 2 * (p.regAddr - startAddr)
    && 0 <= r.pos <= 2 * (EndOf(p) - startAddr) <= |data|
    && r.raw == data[r.pos..2 * (EndOf(p) - startAddr)]
  }

  /** Exactly the points from `k` to `l`, each from its own registers. */
  ghost predicate ReadsExactly(rs: seq<Reading>, ps: seq<Point>, k: nat, l: nat, startAddr: int, data: seq<byte>)
    requires l < |ps|
  {
    && |rs| == l - k + 1
    && forall i :: 0 <= i < |rs| ==> ReadInPlace(rs[i], ps[k + i], startAddr, data)
  }

  lemma {:induction false} AddressesClimb(ps: seq<Point>, k: nat, l: nat)
    requires Contiguous(ps, k, l)
    ensures ps[k].regAddr <= ps[l].regAddr && EndOf(ps[k]) <= EndOf(ps[l])
    decreases l - k
  {
    if k < l {
      AddressesClimb(ps, k + 1, l);
    }
  }

  /** One turn of the decoder at a point of wide type, with room for its offset in a byte. */
  lemma ReadingOne(ps: seq<Point>, k: nat, pos: uint8, len: int, data: seq<byte>)
    requires k < |ps| && |data| >= READ_AREA && pos < len && pos + Width(ps[k].dataType) < U8_SPAN
    ensures var w := Width(ps[k].dataType);
      Readings(ps, k, pos, len, data)
      == [Reading(ps[k], pos, data[pos..pos + w])] + Readings(ps, k + 1, pos + w, len, data)
  {
  }

  lemma PrependReading(r: Reading, rs: seq<Reading>, ps: seq<Point>, k: nat, l: nat, startAddr: int, data: seq<byte>)
    requires k <= l < |ps| && ReadInPlace(r, ps[k], startAddr, data)
    requires ReadsExactly(rs, ps, k + 1, l, startAddr, data)
    ensures ReadsExactly([r] + rs, ps, k, l, startAddr, data)
  {
    forall i | 0 < i < |rs| + 1 ensures ReadInPlace(([r] + rs)[i], ps[k + i], startAddr, data) {
      assert ReadInPlace(rs[i - 1], ps[k + 1 + (i - 1)], startAddr, data);
    }
  }

  lemma {:induction false} WideIsReadInPlace(ps: seq<Point>, k: nat, l: nat, startAddr: int, len: int, data: seq<byte>)
    requires Contiguous(ps, k, l) && |data| >= READ_AREA
    requires len == 2 * (EndOf(ps[l]) - startAddr) < U8_SPAN && startAddr <= ps[k].regAddr
    requires forall i :: k <= i <= l ==> Wide(ps[i].dataType)
    ensures 2 * (ps[k].regAddr - startAddr) < U8_SPAN
    ensures ReadsExactly(Readings(ps, k, 2 * (ps[k].regAddr - startAddr), len, data), ps, k, l, startAddr, data)
    decreases l - k
  {
    AddressesClimb(ps, k, l);
    var pos, end := 2 * (ps[k].regAddr - startAddr), 2 * (EndOf(ps[k]) - startAddr);
    assert Wide(ps[k].dataType);
    ReadingOne(ps, k, pos, len, data);
    if k < l {
      WideIsReadInPlace(ps, k + 1, l, startAddr, len, data);
    } else {
      assert Readings(ps, k + 1, end, len, data) == [];
    }
    PrependReading(Reading(ps[k], pos, data[pos..end]), Readings(ps, k + 1, end, len, data), ps, k, l, startAddr, data);
  }

  /** Up to the first narrow point everything is in place, and that point is read from one byte only. */
  lemma {:induction false} NarrowIsMisread(ps: seq<Point>, k: nat, i: nat, l: nat, startAddr: int, len: int,
                                           data: seq<byte>)
    requires Contiguous(ps, k, l) && k <= i <= l && |data| >= READ_AREA
    requires len == 2 * (EndOf(ps[l]) - startAddr) < U8_SPAN && startAddr <= ps[k].regAddr
    requires (forall j :: k <= j < i ==> Wide(ps[j].dataType)) && !Wide(ps[i].dataType)
    ensures 2 * (ps[k].regAddr - startAddr) < U8_SPAN
    ensures var rs := Readings(ps, k, 2 * (ps[k].regAddr - startAddr), len, data);
      |rs| > i - k && |rs[i - k].raw| == 1
    decreases i - k
  {
    AddressesClimb(ps, k, l);
    ReadingOne(ps, k, 2 * (ps[k].regAddr - startAddr), len, data);
    if k < i {
      assert Wide(ps[k].dataType);
      NarrowIsMisread(ps, k + 1, i, l, startAddr, len, data);
    }
  }

  lemma NarrowIsNotInPlace(rs: seq<Reading>, ps: seq<Point>, f: nat, i: nat, l: nat, startAddr: int, data: seq<byte>)
    requires f <= i <= l < |ps| && ps[i].dataType in {Uint8, Int8}
    requires |rs| > i - f && |rs[i - f].raw| == 1
    ensures !ReadsExactly(rs, ps, f, l, startAddr, data)
  {
    assert !ReadInPlace(rs[i - f], ps[f + (i - f)], startAddr, data);
  }

  /** A full answer to a gapless group is decoded point by point from the right registers, exactly when the group has
      no 8-bit points: the planner counts a register for those, the decoder takes one byte. */
  lemma AlignedIffWide(ps: seq<Point>, f: nat, l: nat, data: seq<byte>)
    requires Contiguous(ps, f, l) && |data| >= READ_AREA
    requires 2 * (EndOf(ps[l]) - ps[f].regAddr) < U8_SPAN
    ensures var startAddr, len := ps[f].regAddr, 2 * (EndOf(ps[l]) - ps[f].regAddr);
      ReadsExactly(Readings(ps, f, 0, len, data), ps, f, l, startAddr, data)
      <==> forall k :: f <= k <= l ==> ps[k].dataType !in {Uint8, Int8}
  {
    var startAddr, len := ps[f].regAddr, 2 * (EndOf(ps[l]) - ps[f].regAddr);
    if forall k :: f <= k <= l ==> Wide(ps[k].dataType) {
      WideIsReadInPlace(ps, f, l, startAddr, len, data);
    } else {
      NarrowIsNotAligned(ps, f, l, startAddr, len, data);
    }
  }

  lemma NarrowIsNotAligned(ps: seq<Point>, f: nat, l: nat, startAddr: int, len: int, data: seq<byte>)
    requires Contiguous(ps, f, l) && |data| >= READ_AREA && startAddr == ps[f].regAddr
    requires len == 2 * (EndOf(ps[l]) - startAddr) < U8_SPAN && !(forall k :: f <= k <= l ==> Wide(ps[k].dataType))
    ensures !ReadsExactly(Readings(ps, f, 0, len, data), ps, f, l, startAddr, data)
    ensures exists k :: f <= k <= l && ps[k].dataType in {Uint8, Int8}
  {
    var i := FirstNarrow(ps, f, l);
    NarrowIsMisread(ps, f, i, l, startAddr, len, data);
    NarrowIsNotInPlace(Readings(ps, f, 0, len, data), ps, f, i, l, startAddr, data);
  }

  lemma FirstNarrow(ps: seq<Point>, f: nat, l: nat) returns (i: nat)
    requires l < |ps| && !(forall k :: f <= k <= l ==> Wide(ps[k].dataType))
    ensures f <= i <= l && !Wide(ps[i].dataType) && forall k :: f <= k < i ==> Wide(ps[k].dataType)
  {
    i := f;
    while Wide(ps[i].dataType)
      invariant f <= i <= l && forall k :: f <= k < i ==> Wide(ps[k].dataType)
      decreases l - i
    {
      assert i < l by {
        if i == l {
          assert forall k :: f <= k <= l ==> Wide(ps[k].dataType);
        }
      }
      i := i + 1;
    }
  }

  // ---------------------------------------------------------------- from the plan to the stored values

  /** Points in order and without overlaps, of types that plan and decoder agree on. */
  ghost predicate Readable(ps: seq<Point>) {
    && (forall i :: 0 <= i < |ps| ==> ps[i].dataType != Undefined && Wide(ps[i].dataType))
    && (forall i, j :: 0 <= i < j < |ps| ==> EndOf(ps[i]) <= ps[j].regAddr)
  }

  /** The registers of two points have nothing in common. */
  predicate Apart(p: Point, q: Point) {
    EndOf(p) <= q.regAddr || EndOf(q) <= p.regAddr
  }

  /** What sorting makes of one device's points, as long as no two share a register. */
  lemma SortedIsReadable(ps: seq<Point>)
    requires SortedRuns(ps) && forall i :: 0 <= i < |ps| ==> SameDevice(ps[0], ps[i])
    requires forall i :: 0 <= i < |ps| ==> ps[i].dataType != Undefined && Wide(ps[i].dataType)
    requires forall i, j :: 0 <= i < j < |ps| ==> Apart(ps[i], ps[j])
    ensures Readable(ps)
  {
    OneDeviceIsSorted(ps);
    forall i, j | 0 <= i < j < |ps| ensures EndOf(ps[i]) <= ps[j].regAddr {
      assert Apart(ps[i], ps[j]) && ps[i].regAddr <= ps[j].regAddr;
    }
  }

  lemma JoinedIsGapless(ps: seq<Point>, maxRegNum: int, i: nat)
    requires i + 1 < |ps| && Joined(ps, maxRegNum, i)
    requires EndOf(ps[i]) <= ps[i + 1].regAddr && ps[i].dataType != Undefined
    ensures EndOf(ps[i]) == ps[i + 1].regAddr
  {
  }

  lemma GroupIsContiguous(ps: seq<Point>, maxRegNum: int, k: nat)
    requires k < |ps| && Readable(ps)
    ensures First(ps, maxRegNum, k) <= k <= Last(ps, maxRegNum, k)
    ensures Contiguous(ps, First(ps, maxRegNum, k), Last(ps, maxRegNum, k))
  {
    var f, l := First(ps, maxRegNum, k), Last(ps, maxRegNum, k);
    JoinedFromFirst(ps, maxRegNum, k);
    JoinedToLast(ps, maxRegNum, k);
    forall i | f <= i < l ensures EndOf(ps[i]) == ps[i + 1].regAddr {
      JoinedIsGapless(ps, maxRegNum, i);
    }
  }

  lemma AddressIsFound(ps: seq<Point>, f: nat)
    requires f < |ps| && Readable(ps)
    ensures FindAddr(ps, ps[f].regAddr, 0) == f
  {
    forall j | 0 <= j < f ensures ps[j].regAddr < ps[f].regAddr {
      assert EndOf(ps[j]) <= ps[f].regAddr;
    }
  }

  /** The request made for the group of point `k`. */
  function RequestFor(ps: seq<Point>, k: nat): (r: Request)
    requires k < |ps| && GroupOf(ps, MAX_REG_NUM, k) < |Plan(ps, MAX_REG_NUM)|
  {
    Sent(0, 0, Plan(ps, MAX_REG_NUM)[GroupOf(ps, MAX_REG_NUM, k)])
  }

  lemma RequestOfReadable(ps: seq<Point>, k: nat)
    requires k < |ps| && Readable(ps)
    ensures GroupOf(ps, MAX_REG_NUM, k) < |Plan(ps, MAX_REG_NUM)|
    ensures var r, f, l := RequestFor(ps, k), First(ps, MAX_REG_NUM, k), Last(ps, MAX_REG_NUM, k);
      && r.startAddr == ps[f].regAddr && r.quantity == EndOf(ps[l]) - ps[f].regAddr && 1 <= r.quantity <= 37
      && f <= k <= l && Contiguous(ps, f, l)
  {
    GroupIsContiguous(ps, MAX_REG_NUM, k);
    EntryOf(ps, MAX_REG_NUM, k);
    RequestIsExact(ps, GroupOf(ps, MAX_REG_NUM, k), 0, 0);
  }

  lemma SpanIsDecoded(ps: seq<Point>, f: nat, l: nat, startAddr: int, quantity: int, data: seq<byte>)
    requires Readable(ps) && Contiguous(ps, f, l) && |data| >= READ_AREA
    requires startAddr == ps[f].regAddr && quantity == EndOf(ps[l]) - startAddr <= 37
    ensures ReadsExactly(Decoded(ps, startAddr, 2 * quantity, data), ps, f, l, startAddr, data)
  {
    AddressIsFound(ps, f);
    AlignedIffWide(ps, f, l, data);
  }

  /** The answer to the request of a point's group: the decoder finds the group's first point by address and stores
      exactly the group's points, each from its own registers. */
  lemma AnswerIsDecoded(ps: seq<Point>, k: nat, data: seq<byte>)
    requires k < |ps| && Readable(ps) && |data| >= READ_AREA
    ensures GroupOf(ps, MAX_REG_NUM, k) < |Plan(ps, MAX_REG_NUM)|
    ensures var r, f, l := RequestFor(ps, k), First(ps, MAX_REG_NUM, k), Last(ps, MAX_REG_NUM, k);
      ReadsExactly(Decoded(ps, r.startAddr, 2 * r.quantity, data), ps, f, l, r.startAddr, data)
  {
    RequestOfReadable(ps, k);
    var r, f, l := RequestFor(ps, k), First(ps, MAX_REG_NUM, k), Last(ps, MAX_REG_NUM, k);
    SpanIsDecoded(ps, f, l, r.startAddr, r.quantity, data);
  }

  /** `data` holds the registers asked for, two bytes each, as they are in the server. */
  ghost predicate Answers(data: seq<byte>, r: Request, server: int -> byte) {
    forall i :: 0 <= i < 2 * r.quantity && i < |data| ==> data[i] == server(2 * r.startAddr + i)
  }

  /** The stored bytes are those of the point's registers in the server. */
  ghost predicate HoldsRegisters(stored: Reading, p: Point, server: int -> byte) {
    && stored.point == p && |stored.raw| == 2 * CalcRegister(p.dataType)
    && forall b :: 0 <= b < |stored.raw| ==> stored.raw[b] == server(2 * p.regAddr + b)
  }

  lemma InPlaceHoldsRegisters(stored: Reading, p: Point, r: Request, data: seq<byte>, server: int -> byte)
    requires Answers(data, r, server) && ReadInPlace(stored, p, r.startAddr, data)
    requires EndOf(p) <= r.startAddr + r.quantity
    ensures HoldsRegisters(stored, p, server)
  {
    forall b | 0 <= b < |stored.raw| ensures stored.raw[b] == server(2 * p.regAddr + b) {
      assert stored.raw[b] == data[stored.pos + b];
    }
  }

  /** End to end, from any list of readable points: when the server's answer to the request of a point's group is
      decoded, the value stored for the point is made of exactly the bytes of the point's registers. */
  lemma PointGetsItsRegisters(ps: seq<Point>, k: nat, server: int -> byte, data: seq<byte>)
    requires k < |ps| && Readable(ps) && |data| >= READ_AREA
    requires GroupOf(ps, MAX_REG_NUM, k) < |Plan(ps, MAX_REG_NUM)| ==> Answers(data, RequestFor(ps, k), server)
    ensures GroupOf(ps, MAX_REG_NUM, k) < |Plan(ps, MAX_REG_NUM)|
    ensures var r, f := RequestFor(ps, k), First(ps, MAX_REG_NUM, k);
      var stored := Decoded(ps, r.startAddr, 2 * r.quantity, data);
      f <= k < f + |stored| && HoldsRegisters(stored[k - f], ps[k], server)
  {
    RequestOfReadable(ps, k);
    AnswerIsDecoded(ps, k, data);
    var r, f, l := RequestFor(ps, k), First(ps, MAX_REG_NUM, k), Last(ps, MAX_REG_NUM, k);
    var stored := Decoded(ps, r.startAddr, 2 * r.quantity, data);
    TakeReading(stored, ps, f, k, l, r.startAddr, data);
    InPlaceHoldsRegisters(stored[k - f], ps[k], r, data, server);
  }

  lemma TakeReading(rs: seq<Reading>, ps: seq<Point>, f: nat, k: nat, l: nat, startAddr: int, data: seq<byte>)
    requires Contiguous(ps, f, l) && f <= k <= l && ReadsExactly(rs, ps, f, l, startAddr, data)
    ensures k - f < |rs| && ReadInPlace(rs[k - f], ps[k], startAddr, data) && EndOf(ps[k]) <= EndOf(ps[l])
  {
    AddressesClimb(ps, k, l);
    assert ps[f + (k - f)] == ps[k];
  }
}
