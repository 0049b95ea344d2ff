/** Planning of Modbus read requests: sorting the points and merging their registers into groups. */
module ModbusPlan {
  import opened MachineInts

  datatype DataType =
    | Uint8 | Int8 | Uint16 | Int16 | Uint32 | Int32 | Float32 | Uint64 | Int64 | Float64
    | Undefined

  datatype Point = Point(pointId: uint32, devId: uint16, devType: nat, regAddr: uint16, dataType: DataType)

  /** Width of a value; 0 for an undefined type. */
  function SizeInBits(t: DataType): nat {
    match t
    case Uint8 | Int8 => 8
    case Uint16 | Int16 => 16
    case Uint32 | Int32 | Float32 => 32
    case Uint64 | Int64 | Float64 => 64
    case Undefined => 0
  }

  /** Registers taken by a value: the least number of 16-bit words that hold it. */
  function CalcRegister(t: DataType): (n: nat)
    ensures 16 * (n - 1) < SizeInBits(t) <= 16 * n
    ensures t != Undefined <==> n in {1, 2, 4}
  {
    match t
    case Uint8 | Int8 | Uint16 | Int16 => 1
    case Uint32 | Int32 | Float32 => 2
    case Uint64 | Int64 | Float64 => 4
    case Undefined => 0
  }

  /** The registers of each type. */
  lemma RegistersOfTypes(t: DataType)
    ensures CalcRegister(t) == 1 <==> t in {Uint8, Int8, Uint16, Int16}
    ensures CalcRegister(t) == 2 <==> t in {Uint32, Int32, Float32}
    ensures CalcRegister(t) == 4 <==> t in {Uint64, Int64, Float64}
    ensures CalcRegister(t) in {0, 1, 2, 4}
  {
  }

  predicate SameDevice(p: Point, q: Point) {
    p.devId == q.devId && p.devType == q.devType
  }

  predicate ValidTypes(ps: seq<Point>) {
    forall i :: 0 <= i < |ps| ==> ps[i].dataType != Undefined
  }

  // ---------------------------------------------------------------- sorting

  /** Positions `p` to `q` all hold points of one device. */
  ghost predicate SameRun(ps: seq<Point>, p: nat, q: nat) {
    p <= q < |ps| && forall m :: p <= m <= q ==> SameDevice(ps[p], ps[m])
  }

  /** The run of `q` ends within `i` places. */
  ghost predicate EndsWithin(ps: seq<Point>, q: nat, i: nat) {
    !SameRun(ps, q, q + i)
  }

  ghost predicate SameDevices(ps: seq<Point>, qs: seq<Point>) {
    |ps| == |qs| && forall k :: 0 <= k < |ps| ==> SameDevice(ps[k], qs[k])
  }

  /** In every run, the last `i` places are in order with respect to everything before them. */
  ghost predicate Settled(ps: seq<Point>, i: nat) {
    forall p: nat, q: nat :: p < q && SameRun(ps, p, q) && EndsWithin(ps, q, i) ==> ps[p].regAddr <= ps[q].regAddr
  }

  /** Sorted by address within every stretch of points of one device. */
  ghost predicate SortedRuns(ps: seq<Point>) {
    forall p: nat, q: nat :: p <= q && SameRun(ps, p, q) ==> ps[p].regAddr <= ps[q].regAddr
  }

  /** Within pass `i`, about to compare positions `j` and `j + 1`. */
  ghost predicate PassAt(ps: seq<Point>, i: nat, j: nat) {
    && i + j < |ps|
    && Settled(ps, i)
    && (forall p: nat :: p < j && SameRun(ps, p, j) ==> ps[p].regAddr <= ps[j].regAddr)
    && (forall p: nat, q: nat :: p < q < j && SameRun(ps, p, q) && EndsWithin(ps, q, i + 1) ==>
          ps[p].regAddr <= ps[q].regAddr)
  }

  function Swapped(ps: seq<Point>, j: nat): seq<Point>
    requires j + 1 < |ps|
  {
    ps[j := ps[j + 1]][j + 1 := ps[j]]
  }

  lemma RunsOfSwapped(ps: seq<Point>, j: nat, p: nat, q: nat)
    requires j + 1 < |ps| && SameDevice(ps[j], ps[j + 1])
    ensures SameRun(Swapped(ps, j), p, q) <==> SameRun(ps, p, q)
  {
    var qs := Swapped(ps, j);
    assert forall k :: 0 <= k < |ps| ==> SameDevice(ps[k], qs[k]);
    if SameRun(ps, p, q) {
      forall m | p <= m <= q ensures SameDevice(qs[p], qs[m]) {
        assert SameDevice(ps[p], ps[m]);
      }
    }
    if SameRun(qs, p, q) {
      forall m | p <= m <= q ensures SameDevice(ps[p], ps[m]) {
        assert SameDevice(qs[p], qs[m]);
      }
    }
  }

  lemma RunExtends(ps: seq<Point>, p: nat, q: nat)
    requires SameRun(ps, p, q) && q + 1 < |ps|
    ensures SameRun(ps, p, q + 1) <==> SameDevice(ps[q], ps[q + 1])
  {
    assert SameDevice(ps[p], ps[q]);
  }

  lemma RunIsPrefixed(ps: seq<Point>, p: nat, m: nat, q: nat)
    requires SameRun(ps, p, q) && p <= m <= q
    ensures SameRun(ps, p, m) && SameRun(ps, m, q)
  {
    assert SameDevice(ps[p], ps[m]);
  }

  /** Positions `j` and `j + 1` of one run, in the wrong order: the later one is not settled yet. */
  lemma InversionIsUnsettled(ps: seq<Point>, i: nat, j: nat)
    requires PassAt(ps, i, j) && j + 1 < |ps| && SameDevice(ps[j], ps[j + 1])
    requires ps[j].regAddr > ps[j + 1].regAddr
    ensures !EndsWithin(ps, j + 1, i)
  {
    RunExtends(ps, j, j);
  }

  lemma RunJoins(ps: seq<Point>, p: nat, m: nat, q: nat)
    requires SameRun(ps, p, m) && SameRun(ps, m, q)
    ensures SameRun(ps, p, q)
  {
    forall k | p <= k <= q ensures SameDevice(ps[p], ps[k]) {
      assert SameDevice(ps[p], ps[m]);
      if k >= m { assert SameDevice(ps[m], ps[k]); }
    }
  }

  lemma PairIsUnsettled(ps: seq<Point>, i: nat, j: nat)
    requires SameRun(ps, j, j + 1) && SameRun(ps, j + 1, j + 1 + i)
    ensures !EndsWithin(ps, j, i) && !EndsWithin(ps, j + 1, i)
  {
    RunJoins(ps, j, j + 1, j + 1 + i);
    RunIsPrefixed(ps, j, j + i, j + 1 + i);
  }

  lemma SettledAfterSwap(ps: seq<Point>, i: nat, j: nat, p: nat, q: nat)
    requires Settled(ps, i) && j + 1 < |ps| && SameRun(ps, j, j + 1) && SameRun(ps, j + 1, j + 1 + i)
    requires p < q && SameRun(ps, p, q) && EndsWithin(ps, q, i)
    ensures Swapped(ps, j)[p].regAddr <= Swapped(ps, j)[q].regAddr
  {
    PairIsUnsettled(ps, i, j);
    var p' := if p == j then j + 1 else if p == j + 1 then j else p;
    assert Swapped(ps, j)[p] == ps[p'] && Swapped(ps, j)[q] == ps[q];
    if p == j {
      RunIsPrefixed(ps, j, j + 1, q);
    } else if p == j + 1 {
      RunJoins(ps, j, j + 1, q);
    }
    assert p' < q && SameRun(ps, p', q);
  }

  lemma SwapKeepsSettled(ps: seq<Point>, i: nat, j: nat)
    requires Settled(ps, i) && j + 1 < |ps| && SameRun(ps, j, j + 1) && SameRun(ps, j + 1, j + 1 + i)
    ensures Settled(Swapped(ps, j), i)
  {
    var qs := Swapped(ps, j);
    forall p: nat, q: nat | p < q && SameRun(qs, p, q) && EndsWithin(qs, q, i)
      ensures qs[p].regAddr <= qs[q].regAddr
    {
      RunsOfSwapped(ps, j, p, q);
      RunsOfSwapped(ps, j, q, q + i);
      SettledAfterSwap(ps, i, j, p, q);
    }
  }

  lemma PassSwaps(ps: seq<Point>, i: nat, j: nat)
    requires PassAt(ps, i, j) && i + j + 1 < |ps| && SameDevice(ps[j], ps[j + 1])
    requires ps[j].regAddr > ps[j + 1].regAddr
    ensures PassAt(Swapped(ps, j), i, j + 1)
  {
    var qs := Swapped(ps, j);
    InversionIsUnsettled(ps, i, j);
    RunExtends(ps, j, j);
    SwapKeepsSettled(ps, i, j);
    forall p: nat | p < j + 1 && SameRun(qs, p, j + 1) ensures qs[p].regAddr <= qs[j + 1].regAddr {
      RunsOfSwapped(ps, j, p, j + 1);
      if p < j { RunIsPrefixed(ps, p, j, j + 1); }
    }
    RunJoins(ps, j, j + 1, j + 1 + i);
    RunsOfSwapped(ps, j, j, j + i + 1);
    forall p: nat, q: nat | p < q < j && SameRun(qs, p, q) && EndsWithin(qs, q, i + 1)
      ensures qs[p].regAddr <= qs[q].regAddr
    {
      RunsOfSwapped(ps, j, p, q);
      RunsOfSwapped(ps, j, q, q + i + 1);
    }
  }

  lemma HighestMovesOn(ps: seq<Point>, j: nat, p: nat)
    requires j + 1 < |ps| && !(SameDevice(ps[j], ps[j + 1]) && ps[j].regAddr > ps[j + 1].regAddr)
    requires forall m: nat :: m < j && SameRun(ps, m, j) ==> ps[m].regAddr <= ps[j].regAddr
    requires p < j + 1 && SameRun(ps, p, j + 1)
    ensures ps[p].regAddr <= ps[j + 1].regAddr
  {
    RunIsPrefixed(ps, p, j, j + 1);
    assert SameDevice(ps[j], ps[j + 1]);
  }

  lemma PassSkips(ps: seq<Point>, i: nat, j: nat)
    requires PassAt(ps, i, j) && i + j + 1 < |ps|
    requires !(SameDevice(ps[j], ps[j + 1]) && ps[j].regAddr > ps[j + 1].regAddr)
    ensures PassAt(ps, i, j + 1)
  {
    forall p: nat | p < j + 1 && SameRun(ps, p, j + 1) ensures ps[p].regAddr <= ps[j + 1].regAddr {
      HighestMovesOn(ps, j, p);
    }
  }

  lemma PassEnds(ps: seq<Point>, i: nat)
    requires i < |ps| && PassAt(ps, i, |ps| - 1 - i)
    ensures Settled(ps, i + 1)
  {
    forall p: nat, q: nat | p < q && SameRun(ps, p, q) && EndsWithin(ps, q, i + 1)
      ensures ps[p].regAddr <= ps[q].regAddr
    {
      if q > |ps| - 1 - i {
        assert EndsWithin(ps, q, i);
      }
    }
  }

  lemma SettledIsSorted(ps: seq<Point>)
    requires ps != [] && Settled(ps, |ps| - 1)
    ensures SortedRuns(ps)
  {
    forall p: nat, q: nat | p < q && SameRun(ps, p, q) ensures ps[p].regAddr <= ps[q].regAddr {
      assert EndsWithin(ps, q, |ps| - 1);
    }
  }

  lemma SwapKeepsPoints(ps: seq<Point>, j: nat)
    requires j + 1 < |ps| && SameDevice(ps[j], ps[j + 1])
    ensures multiset(Swapped(ps, j)) == multiset(ps) && SameDevices(Swapped(ps, j), ps)
  {
    assert ps == ps[..j] + [ps[j], ps[j + 1]] + ps[j + 2..];
    assert Swapped(ps, j) == ps[..j] + [ps[j + 1], ps[j]] + ps[j + 2..];
  }

  /** The points of one device at one address, in order. */
  function PointsAt(ps: seq<Point>, devId: int, devType: nat, addr: int): seq<Point> {
    if ps == [] then []
    else
      var rest, p := PointsAt(ps[..|ps| - 1], devId, devType, addr), ps[|ps| - 1];
      if p.devId == devId && p.devType == devType && p.regAddr == addr then rest + [p] else rest
  }

  /** Points that cannot be told apart by device and address have kept their order. */
  ghost predicate SameOrder(ps: seq<Point>, qs: seq<Point>) {
    forall devId: int, devType: nat, addr: int ::
      PointsAt(ps, devId, devType, addr) == PointsAt(qs, devId, devType, addr)
  }

  lemma {:induction false} PointsAtAdds(ps: seq<Point>, qs: seq<Point>, devId: int, devType: nat, addr: int)
    ensures PointsAt(ps + qs, devId, devType, addr)
            == PointsAt(ps, devId, devType, addr) + PointsAt(qs, devId, devType, addr)
  {
    if qs == [] {
      assert ps + qs == ps;
    } else {
      PointsAtAdds(ps, qs[..|qs| - 1], devId, devType, addr);
      assert (ps + qs)[..|ps + qs| - 1] == ps + qs[..|qs| - 1];
    }
  }

  lemma PairAt(p: Point, q: Point, devId: int, devType: nat, addr: int)
    requires p.regAddr != q.regAddr
    ensures PointsAt([p, q], devId, devType, addr) == PointsAt([q, p], devId, devType, addr)
  {
    assert [p, q][..1] == [p] && [q, p][..1] == [q] && [p][..0] == [] && [q][..0] == [];
  }

  lemma SwapKeepsOrder(ps: seq<Point>, j: nat, devId: int, devType: nat, addr: int)
    requires j + 1 < |ps| && ps[j].regAddr != ps[j + 1].regAddr
    ensures PointsAt(Swapped(ps, j), devId, devType, addr) == PointsAt(ps, devId, devType, addr)
  {
    var before, after := ps[..j], ps[j + 2..];
    var p, q := ps[j], ps[j + 1];
    PairAt(p, q, devId, devType, addr);
    PointsAtAdds(before, [p, q], devId, devType, addr);
    PointsAtAdds(before, [q, p], devId, devType, addr);
    PointsAtAdds(before + [p, q], after, devId, devType, addr);
    PointsAtAdds(before + [q, p], after, devId, devType, addr);
    assert ps == before + [p, q] + after && Swapped(ps, j) == before + [q, p] + after;
  }

  lemma ComparedKeepsOrder(ps: seq<Point>, j: nat)
    requires j + 1 < |ps|
    ensures SameOrder(Compared(ps, j), ps)
  {
    if OutOfOrder(ps, j) {
      forall devId: int, devType: nat, addr: int
        ensures PointsAt(Swapped(ps, j), devId, devType, addr) == PointsAt(ps, devId, devType, addr)
      {
        SwapKeepsOrder(ps, j, devId, devType, addr);
      }
    }
  }

  predicate OutOfOrder(ps: seq<Point>, j: nat)
    requires j + 1 < |ps|
  {
    SameDevice(ps[j], ps[j + 1]) && ps[j].regAddr > ps[j + 1].regAddr
  }

  function Compared(ps: seq<Point>, j: nat): seq<Point>
    requires j + 1 < |ps|
  {
    if OutOfOrder(ps, j) then Swapped(ps, j) else ps
  }

  lemma ComparedMovesOn(ps: seq<Point>, i: nat, j: nat)
    requires PassAt(ps, i, j) && i + j + 1 < |ps|
    ensures PassAt(Compared(ps, j), i, j + 1)
  {
    if OutOfOrder(ps, j) { PassSwaps(ps, i, j); } else { PassSkips(ps, i, j); }
  }

  lemma ComparedKeepsPoints(ps: seq<Point>, j: nat)
    requires j + 1 < |ps|
    ensures multiset(Compared(ps, j)) == multiset(ps) && SameDevices(Compared(ps, j), ps)
  {
    if OutOfOrder(ps, j) { SwapKeepsPoints(ps, j); }
  }

  method CompareAndSwap(points: array<Point>, j: nat)
    requires j + 1 < points.Length
    modifies points
    ensures points[..] == Compared(old(points[..]), j)
  {
    if points[j].devId == points[j + 1].devId && points[j].devType == points[j + 1].devType &&
       points[j].regAddr > points[j + 1].regAddr {
      var tmp := points[j];
      points[j] := points[j + 1];
      points[j + 1] := tmp;
    }
  }

  /** Within pass `i` over the points that were `first`. */
  ghost predicate InPass(first: seq<Point>, ps: seq<Point>, i: nat, j: nat) {
    PassAt(ps, i, j) && multiset(ps) == multiset(first) && SameDevices(ps, first) && SameOrder(ps, first)
  }

  lemma InPassMovesOn(first: seq<Point>, ps: seq<Point>, i: nat, j: nat)
    requires InPass(first, ps, i, j) && i + j + 1 < |ps|
    ensures InPass(first, Compared(ps, j), i, j + 1)
  {
    ComparedMovesOn(ps, i, j);
    ComparedKeepsPoints(ps, j);
    ComparedKeepsOrder(ps, j);
  }

  lemma InPassEnds(first: seq<Point>, ps: seq<Point>, i: nat)
    requires i < |ps| && InPass(first, ps, i, |ps| - 1 - i)
    ensures Settled(ps, i + 1) && multiset(ps) == multiset(first) && SameDevices(ps, first) && SameOrder(ps, first)
  {
    PassEnds(ps, i);
  }

  method SortPass(points: array<Point>, i: nat)
    requires i < points.Length && Settled(points[..], i)
    modifies points
    ensures Settled(points[..], i + 1)
    ensures multiset(points[..]) == old(multiset(points[..])) && SameDevices(points[..], old(points[..]))
    ensures SameOrder(points[..], old(points[..]))
  {
    ghost var first := points[..];
    for j := 0 to points.Length - i - 1
      invariant InPass(first, points[..], i, j)
    {
      InPassMovesOn(first, points[..], i, j);
      CompareAndSwap(points, j);
    }
    InPassEnds(first, points[..], i);
  }

  /** Sorts every stretch of points of one device by address, in place; devices stay where they are, and points of
      one device and address keep their order. */
  method ModbusSort(points: array<Point>)
    modifies points
    ensures multiset(points[..]) == old(multiset(points[..]))
    ensures SameDevices(points[..], old(points[..])) && SortedRuns(points[..])
    ensures SameOrder(points[..], old(points[..]))
  {
    if points.Length == 0 {
      return;
    }
    for i := 0 to points.Length - 1
      invariant Settled(points[..], i)
      invariant multiset(points[..]) == old(multiset(points[..])) && SameDevices(points[..], old(points[..]))
      invariant SameOrder(points[..], old(points[..]))
    {
      SortPass(points, i);
    }
    SettledIsSorted(points[..]);
  }

  /** With one device only, the whole list comes out sorted. */
  lemma OneDeviceIsSorted(ps: seq<Point>)
    requires SortedRuns(ps) && forall k :: 0 <= k < |ps| ==> SameDevice(ps[0], ps[k])
    ensures forall p, q :: 0 <= p <= q < |ps| ==> ps[p].regAddr <= ps[q].regAddr
  {
    forall p: nat, q: nat | p <= q < |ps| ensures ps[p].regAddr <= ps[q].regAddr {
      assert SameRun(ps, p, q);
    }
  }
}
