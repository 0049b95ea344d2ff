/** Merging of sorted points into register groups, in one counting and one filling pass. */
module ModbusMerge {
  import opened MachineInts
  import opened ModbusPlan

  datatype ReqGroup = ReqGroup(startAddr: int, endAddr: int)

  // ---------------------------------------------------------------- specification

  function EndOf(p: Point): int {
    p.regAddr + CalcRegister(p.dataType)
  }

  /** Neighbours whose registers touch, or whose addresses are consecutive, on one device. */
  predicate CouldJoin(l: Point, r: Point) {
    (r.regAddr - l.regAddr == 1 || EndOf(l) == r.regAddr) && SameDevice(l, r)
  }

  /** Registers of the current group counted before the pair `(i, i + 1)` is looked at. */
  function NewLen(ps: seq<Point>, maxRegNum: int, i: nat): nat
    requires i < |ps|
  {
    if i == 0 then 0
    else if CouldJoin(ps[i - 1], ps[i]) && NewLen(ps, maxRegNum, i - 1) < maxRegNum then
      NewLen(ps, maxRegNum, i - 1) + CalcRegister(ps[i - 1].dataType)
    else 0
  }

  /** Whether points `i` and `i + 1` end up in one group. */
  predicate Joined(ps: seq<Point>, maxRegNum: int, i: nat)
    requires i + 1 < |ps|
  {
    CouldJoin(ps[i], ps[i + 1]) && NewLen(ps, maxRegNum, i) < maxRegNum
  }

  /** Number of the group that point `i` belongs to. */
  function GroupOf(ps: seq<Point>, maxRegNum: int, i: nat): nat
    requires i < |ps|
  {
    if i == 0 then 0
    else GroupOf(ps, maxRegNum, i - 1) + if Joined(ps, maxRegNum, i - 1) then 0 else 1
  }

  /** First point of the group of `i`. */
  function First(ps: seq<Point>, maxRegNum: int, i: nat): (f: nat)
    requires i < |ps|
    ensures f <= i
  {
    if i == 0 || !Joined(ps, maxRegNum, i - 1) then i else First(ps, maxRegNum, i - 1)
  }

  /** Last point of the group of `i`. */
  function Last(ps: seq<Point>, maxRegNum: int, i: nat): (l: nat)
    requires i < |ps|
    ensures i <= l < |ps|
    decreases |ps| - i
  {
    if i == |ps| - 1 || !Joined(ps, maxRegNum, i) then i else Last(ps, maxRegNum, i + 1)
  }

  /** The groups of the points up to `i`: a joined point moves the end of the last group. */
  function Grouped(ps: seq<Point>, maxRegNum: int, i: nat): (groups: seq<ReqGroup>)
    requires i < |ps|
    ensures |groups| == GroupOf(ps, maxRegNum, i) + 1
    ensures groups[|groups| - 1].endAddr == EndOf(ps[i]) - 1
  {
    if i == 0 then [ReqGroup(ps[0].regAddr, EndOf(ps[0]) - 1)]
    else
      var before := Grouped(ps, maxRegNum, i - 1);
      var g := |before| - 1;
      if Joined(ps, maxRegNum, i - 1) then before[g := before[g].(endAddr := EndOf(ps[i]) - 1)]
      else before + [ReqGroup(ps[i].regAddr, EndOf(ps[i]) - 1)]
  }

  function Plan(ps: seq<Point>, maxRegNum: int): seq<ReqGroup> {
    if ps == [] then [] else Grouped(ps, maxRegNum, |ps| - 1)
  }

  // ---------------------------------------------------------------- the two passes

  predicate JoinsNow(l: Point, r: Point, newLen: nat, maxRegNum: int) {
    && (r.regAddr - l.regAddr == 1 || l.regAddr + CalcRegister(l.dataType) == r.regAddr)
    && newLen < maxRegNum
    && l.devType == r.devType && l.devId == r.devId
  }

  function AddLen(newLen: nat, l: Point): nat {
    if l.dataType in {Uint8, Int8} then newLen + 1 else newLen + CalcRegister(l.dataType)
  }

  method CountGroups(points: array<Point>, maxRegNum: int) returns (groupNum: nat)
    requires points.Length > 0
    ensures groupNum == GroupOf(points[..], maxRegNum, points.Length - 1) + 1
  {
    groupNum := 1;
    var newLen := 0;
    ghost var ps := points[..];
    for i := 0 to points.Length - 1
      invariant groupNum == GroupOf(ps, maxRegNum, i) + 1 && newLen == NewLen(ps, maxRegNum, i)
    {
      if JoinsNow(points[i], points[i + 1], newLen, maxRegNum) {
        newLen := AddLen(newLen, points[i]);
      } else {
        groupNum := groupNum + 1;
        newLen := 0;
      }
    }
  }

  /** All groups but the last, and where the last one starts: what is known before its end is. */
  ghost predicate FilledTo(groups: seq<ReqGroup>, plan: seq<ReqGroup>) {
    && 0 < |plan| <= |groups|
    && (forall g :: 0 <= g < |plan| - 1 ==> groups[g] == plan[g])
    && groups[|plan| - 1].startAddr == plan[|plan| - 1].startAddr
  }

  lemma {:induction false} GroupsGrow(ps: seq<Point>, maxRegNum: int, i: nat, j: nat)
    requires i <= j < |ps|
    ensures GroupOf(ps, maxRegNum, i) <= GroupOf(ps, maxRegNum, j)
  {
    if i < j {
      GroupsGrow(ps, maxRegNum, i, j - 1);
    }
  }

  function WithEnd(groups: seq<ReqGroup>, g: nat, p: Point): seq<ReqGroup>
    requires g < |groups|
  {
    groups[g := groups[g].(endAddr := EndOf(p) - 1)]
  }

  function WithStart(groups: seq<ReqGroup>, g: nat, p: Point): seq<ReqGroup>
    requires g < |groups|
  {
    groups[g := groups[g].(startAddr := p.regAddr)]
  }

  lemma BreakFills(ps: seq<Point>, maxRegNum: int, groups: seq<ReqGroup>, i: nat)
    requires i + 1 < |ps| && !Joined(ps, maxRegNum, i) && GroupOf(ps, maxRegNum, i + 1) < |groups|
    requires FilledTo(groups, Grouped(ps, maxRegNum, i))
    ensures var g := GroupOf(ps, maxRegNum, i);
      FilledTo(WithStart(WithEnd(groups, g, ps[i]), g + 1, ps[i + 1]), Grouped(ps, maxRegNum, i + 1))
  {
    var g := GroupOf(ps, maxRegNum, i);
    var plan, next := Grouped(ps, maxRegNum, i), Grouped(ps, maxRegNum, i + 1);
    var gs := WithStart(WithEnd(groups, g, ps[i]), g + 1, ps[i + 1]);
    assert next == plan + [ReqGroup(ps[i + 1].regAddr, EndOf(ps[i + 1]) - 1)];
    assert plan[g].endAddr == EndOf(ps[i]) - 1;
    assert gs[g] == plan[g];
  }

  lemma JoinFills(ps: seq<Point>, maxRegNum: int, groups: seq<ReqGroup>, i: nat)
    requires i + 1 < |ps| && Joined(ps, maxRegNum, i)
    requires FilledTo(groups, Grouped(ps, maxRegNum, i))
    ensures FilledTo(groups, Grouped(ps, maxRegNum, i + 1))
  {
    var plan, next := Grouped(ps, maxRegNum, i), Grouped(ps, maxRegNum, i + 1);
    assert next == plan[|plan| - 1 := plan[|plan| - 1].(endAddr := EndOf(ps[i + 1]) - 1)];
  }

  lemma EndCompletes(groups: seq<ReqGroup>, plan: seq<ReqGroup>, p: Point)
    requires FilledTo(groups, plan) && |groups| == |plan| && plan[|plan| - 1].endAddr == EndOf(p) - 1
    ensures WithEnd(groups, |plan| - 1, p) == plan && FilledTo(plan, plan)
  {
  }

  method PutEnd(groups: array<ReqGroup>, g: nat, p: Point)
    requires g < groups.Length
    modifies groups
    ensures groups[..] == WithEnd(old(groups[..]), g, p)
  {
    groups[g] := groups[g].(endAddr := p.regAddr + CalcRegister(p.dataType) - 1);
  }

  method PutStart(groups: array<ReqGroup>, g: nat, p: Point)
    requires g < groups.Length
    modifies groups
    ensures groups[..] == WithStart(old(groups[..]), g, p)
  {
    groups[g] := groups[g].(startAddr := p.regAddr);
  }

  /** The filling pass before the pair `(i, i + 1)`. */
  ghost predicate Filling(ps: seq<Point>, maxRegNum: int, groups: seq<ReqGroup>, i: nat, groupNum: nat, newLen: nat) {
    && i < |ps| && |groups| == GroupOf(ps, maxRegNum, |ps| - 1) + 1
    && groupNum == GroupOf(ps, maxRegNum, i) && newLen == NewLen(ps, maxRegNum, i)
    && FilledTo(groups, Grouped(ps, maxRegNum, i))
  }

  method FillPair(points: array<Point>, maxRegNum: int, groups: array<ReqGroup>, i: nat, groupNum: nat, newLen: nat)
    returns (groupNum': nat, newLen': nat)
    requires i + 1 < points.Length && Filling(points[..], maxRegNum, groups[..], i, groupNum, newLen)
    modifies groups
    ensures Filling(points[..], maxRegNum, groups[..], i + 1, groupNum', newLen')
  {
    GroupsGrow(points[..], maxRegNum, i + 1, points.Length - 1);
    var left, right := points[i], points[i + 1];
    if JoinsNow(left, right, newLen, maxRegNum) {
      JoinFills(points[..], maxRegNum, groups[..], i);
      newLen' := AddLen(newLen, left);
      groupNum' := groupNum;
    } else {
      BreakFills(points[..], maxRegNum, groups[..], i);
      PutEnd(groups, groupNum, left);
      groupNum' := groupNum + 1;
      newLen' := 0;
      PutStart(groups, groupNum', right);
    }
  }

  /** One turn of the filling pass; the last pair also ends the last group. */
  method FillTurn(points: array<Point>, maxRegNum: int, groups: array<ReqGroup>, i: nat, groupNum: nat, newLen: nat)
    returns (groupNum': nat, newLen': nat)
    requires i + 1 < points.Length && Filling(points[..], maxRegNum, groups[..], i, groupNum, newLen)
    modifies groups
    ensures Filling(points[..], maxRegNum, groups[..], i + 1, groupNum', newLen')
    ensures i + 2 == points.Length ==> groups[..] == Grouped(points[..], maxRegNum, i + 1)
  {
    groupNum', newLen' := FillPair(points, maxRegNum, groups, i, groupNum, newLen);
    if i == points.Length - 2 {
      EndCompletes(groups[..], Grouped(points[..], maxRegNum, i + 1), points[i + 1]);
      PutEnd(groups, groupNum', points[i + 1]);
    }
  }

  method FillGroups(points: array<Point>, maxRegNum: int, groups: array<ReqGroup>)
    requires points.Length > 0 && groups.Length == GroupOf(points[..], maxRegNum, points.Length - 1) + 1
    modifies groups
    ensures groups[..] == Plan(points[..], maxRegNum)
  {
    var n := points.Length;
    var newLen, groupNum := 0, 0;
    PutStart(groups, 0, points[0]);
    if n == 1 {
      PutEnd(groups, groupNum, points[0]);
    }
    for i := 0 to n - 1
      invariant Filling(points[..], maxRegNum, groups[..], i, groupNum, newLen)
      invariant i == n - 1 ==> groups[..] == Plan(points[..], maxRegNum)
    {
      groupNum, newLen := FillTurn(points, maxRegNum, groups, i, groupNum, newLen);
    }
  }

  /** The plan of a point list; the counting pass sizes the array that the filling pass uses up exactly. */
  method ModbusMergeAddr(points: array<Point>, maxRegNum: int) returns (groups: array<ReqGroup>)
    ensures groups[..] == Plan(points[..], maxRegNum)
  {
    if points.Length == 0 {
      groups := new ReqGroup[0];
      return;
    }
    var groupNum := CountGroups(points, maxRegNum);
    groups := new ReqGroup[groupNum](_ => ReqGroup(0, 0));
    FillGroups(points, maxRegNum, groups);
  }
}
