/** What the merged groups promise about the points they were made from. */
module ModbusPlanProperties {
  import opened MachineInts
  import opened ModbusMerge
  import opened ModbusPlan

  // ---------------------------------------------------------------- entries of the plan

  lemma {:induction false} LastEnds(ps: seq<Point>, maxRegNum: int, k: nat)
    requires k < |ps|
    ensures var l := Last(ps, maxRegNum, k);
      && (l == |ps| - 1 || !Joined(ps, maxRegNum, l))
      && GroupOf(ps, maxRegNum, l) == GroupOf(ps, maxRegNum, k)
      && First(ps, maxRegNum, l) == First(ps, maxRegNum, k)
    decreases |ps| - k
  {
    if Last(ps, maxRegNum, k) != k {
      LastEnds(ps, maxRegNum, k + 1);
    }
  }

  lemma {:induction false} JoinedFromFirst(ps: seq<Point>, maxRegNum: int, k: nat)
    requires k < |ps|
    ensures forall i :: First(ps, maxRegNum, k) <= i < k ==> Joined(ps, maxRegNum, i)
  {
    if First(ps, maxRegNum, k) != k {
      JoinedFromFirst(ps, maxRegNum, k - 1);
    }
  }

  lemma {:induction false} JoinedToLast(ps: seq<Point>, maxRegNum: int, k: nat)
    requires k < |ps|
    ensures forall i :: k <= i < Last(ps, maxRegNum, k) ==> Joined(ps, maxRegNum, i)
    decreases |ps| - k
  {
    if Last(ps, maxRegNum, k) != k {
      JoinedToLast(ps, maxRegNum, k + 1);
    }
  }

  lemma {:induction false} StartOfGroup(ps: seq<Point>, maxRegNum: int, k: nat, n: nat)
    requires k <= n < |ps|
    ensures GroupOf(ps, maxRegNum, k) <= GroupOf(ps, maxRegNum, n)
    ensures Grouped(ps, maxRegNum, n)[GroupOf(ps, maxRegNum, k)].startAddr
            == ps[First(ps, maxRegNum, k)].regAddr
  {
    GroupsGrow(ps, maxRegNum, k, n);
    if k < n {
      StartOfGroup(ps, maxRegNum, k, n - 1);
    } else if 0 < k && Joined(ps, maxRegNum, k - 1) {
      StartOfGroup(ps, maxRegNum, k - 1, k - 1);
    }
  }

  lemma {:induction false} EndOfGroup(ps: seq<Point>, maxRegNum: int, l: nat, n: nat)
    requires l <= n < |ps| && (l == |ps| - 1 || !Joined(ps, maxRegNum, l))
    ensures GroupOf(ps, maxRegNum, l) <= GroupOf(ps, maxRegNum, n)
    ensures Grouped(ps, maxRegNum, n)[GroupOf(ps, maxRegNum, l)].endAddr == EndOf(ps[l]) - 1
  {
    GroupsGrow(ps, maxRegNum, l, n);
    if l < n {
      EndOfGroup(ps, maxRegNum, l, n - 1);
      GroupsGrow(ps, maxRegNum, l + 1, n);
    }
  }

  lemma {:induction false} PlanEntry(ps: seq<Point>, maxRegNum: int, k: nat, l: nat, plan: seq<ReqGroup>)
    requires k <= l < |ps| && (l == |ps| - 1 || !Joined(ps, maxRegNum, l))
    requires GroupOf(ps, maxRegNum, l) == GroupOf(ps, maxRegNum, k) && plan == Grouped(ps, maxRegNum, |ps| - 1)
    ensures GroupOf(ps, maxRegNum, k) < |plan|
    ensures plan[GroupOf(ps, maxRegNum, k)] == ReqGroup(ps[First(ps, maxRegNum, k)].regAddr, EndOf(ps[l]) - 1)
  {
    StartOfGroup(ps, maxRegNum, k, |ps| - 1);
    EndOfGroup(ps, maxRegNum, l, |ps| - 1);
  }

  /** The group of a point runs from its first point's address to its last point's end. */
  lemma EntryOf(ps: seq<Point>, maxRegNum: int, k: nat)
    requires k < |ps|
    ensures GroupOf(ps, maxRegNum, k) < |Plan(ps, maxRegNum)|
    ensures Plan(ps, maxRegNum)[GroupOf(ps, maxRegNum, k)]
            == ReqGroup(ps[First(ps, maxRegNum, k)].regAddr, EndOf(ps[Last(ps, maxRegNum, k)]) - 1)
  {
    LastEnds(ps, maxRegNum, k);
    PlanEntry(ps, maxRegNum, k, Last(ps, maxRegNum, k), Plan(ps, maxRegNum));
  }

  /** Every group has a point, so the plan has no idle entry. */
  lemma {:induction false} EveryGroupIsUsed(ps: seq<Point>, maxRegNum: int, g: nat)
    requires g < |Plan(ps, maxRegNum)|
    ensures exists k: nat :: k < |ps| && GroupOf(ps, maxRegNum, k) == g
  {
    var k: nat := |ps| - 1;
    while GroupOf(ps, maxRegNum, k) != g
      invariant k < |ps| && g <= GroupOf(ps, maxRegNum, k)
      decreases k
    {
      k := k - 1;
    }
  }

  // ---------------------------------------------------------------- width of the groups

  /** Within a group addresses grow, by no more than the registers counted so far. */
  lemma {:induction false} GroupClimbs(ps: seq<Point>, maxRegNum: int, k: nat)
    requires k < |ps| && ValidTypes(ps)
    ensures var f := First(ps, maxRegNum, k);
      0 <= ps[k].regAddr - ps[f].regAddr <= NewLen(ps, maxRegNum, k) && SameDevice(ps[f], ps[k])
    ensures NewLen(ps, maxRegNum, k) == 0 || NewLen(ps, maxRegNum, k) < maxRegNum + 4
  {
    if 0 < k && Joined(ps, maxRegNum, k - 1) {
      GroupClimbs(ps, maxRegNum, k - 1);
    }
  }

  function AtLeastZero(n: int): int {
    if n < 0 then 0 else n
  }

  /** For sorted or unsorted points of valid types: a point starts inside its group, shares the device of the
      group's first point, and the group covers between 1 and `maxRegNum + 7` registers. */
  lemma GroupWidthIsBounded(ps: seq<Point>, maxRegNum: int, k: nat)
    requires k < |ps| && ValidTypes(ps)
    ensures GroupOf(ps, maxRegNum, k) < |Plan(ps, maxRegNum)|
    ensures var g := Plan(ps, maxRegNum)[GroupOf(ps, maxRegNum, k)];
      && g.startAddr <= ps[k].regAddr <= g.endAddr
      && 1 <= g.endAddr - g.startAddr + 1 <= AtLeastZero(maxRegNum) + 7
    ensures SameDevice(ps[First(ps, maxRegNum, k)], ps[k])
  {
    EntryOf(ps, maxRegNum, k);
    var l := Last(ps, maxRegNum, k);
    LastEnds(ps, maxRegNum, k);
    GroupClimbs(ps, maxRegNum, l);
    GroupClimbs(ps, maxRegNum, k);
    LastIsHigher(ps, maxRegNum, k);
  }

  lemma {:induction false} LastIsHigher(ps: seq<Point>, maxRegNum: int, k: nat)
    requires k < |ps| && ValidTypes(ps)
    ensures ps[k].regAddr <= ps[Last(ps, maxRegNum, k)].regAddr
    decreases |ps| - k
  {
    if Last(ps, maxRegNum, k) != k {
      LastIsHigher(ps, maxRegNum, k + 1);
    }
  }

  /** The same, group by group: none is idle, and each starts at a point's address. */
  lemma EveryGroupIsBounded(ps: seq<Point>, maxRegNum: int, g: nat)
    requires ValidTypes(ps) && g < |Plan(ps, maxRegNum)|
    ensures exists f: nat :: f < |ps| && Plan(ps, maxRegNum)[g].startAddr == ps[f].regAddr
    ensures 1 <= Plan(ps, maxRegNum)[g].endAddr - Plan(ps, maxRegNum)[g].startAddr + 1 <= AtLeastZero(maxRegNum) + 7
  {
    EveryGroupIsUsed(ps, maxRegNum, g);
    var k: nat :| k < |ps| && GroupOf(ps, maxRegNum, k) == g;
    GroupWidthIsBounded(ps, maxRegNum, k);
    EntryOf(ps, maxRegNum, k);
  }

  // ---------------------------------------------------------------- which points are merged

  /** Registers of the points from `i` to before `j`. */
  function Registers(ps: seq<Point>, i: nat, j: nat): nat
    requires i <= j <= |ps|
  {
    if i == j then 0 else Registers(ps, i, j - 1) + CalcRegister(ps[j - 1].dataType)
  }

  lemma {:induction false} FirstStartsGroup(ps: seq<Point>, maxRegNum: int, i: nat, j: nat)
    requires i <= j < |ps| && GroupOf(ps, maxRegNum, j) == GroupOf(ps, maxRegNum, i)
    requires i == 0 || GroupOf(ps, maxRegNum, i - 1) != GroupOf(ps, maxRegNum, i)
    ensures NewLen(ps, maxRegNum, j) == Registers(ps, i, j)
  {
    if i < j {
      GroupsGrow(ps, maxRegNum, i, j - 1);
      FirstStartsGroup(ps, maxRegNum, i, j - 1);
    }
  }

  /** Of the group that starts with point `i` and holds point `j`, the next point is a member exactly when it is of the
      same device, starts where point `j` ends or one register after its start, and the registers of the points before
      `j` are still fewer than the limit. */
  lemma MergedIff(ps: seq<Point>, maxRegNum: int, i: nat, j: nat)
    requires i <= j && j + 1 < |ps| && GroupOf(ps, maxRegNum, j) == GroupOf(ps, maxRegNum, i)
    requires i == 0 || GroupOf(ps, maxRegNum, i - 1) != GroupOf(ps, maxRegNum, i)
    ensures GroupOf(ps, maxRegNum, j + 1) == GroupOf(ps, maxRegNum, j) <==>
      var l, r := ps[j], ps[j + 1];
      && l.devId == r.devId && l.devType == r.devType
      && (l.regAddr + CalcRegister(l.dataType) == r.regAddr || l.regAddr + 1 == r.regAddr)
      && Registers(ps, i, j) < maxRegNum
  {
    FirstStartsGroup(ps, maxRegNum, i, j);
  }

  lemma {:induction false} RegistersGrow(ps: seq<Point>, i: nat, j: nat, k: nat)
    requires i <= j <= k <= |ps|
    ensures Registers(ps, i, j) <= Registers(ps, i, k)
  {
    if j < k {
      RegistersGrow(ps, i, j, k - 1);
    }
  }

  /** Point `k + 1` follows point `k` closely enough for one group. */
  predicate Follows(ps: seq<Point>, k: nat)
    requires k + 1 < |ps|
  {
    && ps[k].devId == ps[k + 1].devId && ps[k].devType == ps[k + 1].devType
    && (ps[k].regAddr + CalcRegister(ps[k].dataType) == ps[k + 1].regAddr || ps[k].regAddr + 1 == ps[k + 1].regAddr)
  }

  lemma NextIsMerged(ps: seq<Point>, maxRegNum: int, i: nat, j: nat)
    requires i <= j && j + 1 < |ps| && GroupOf(ps, maxRegNum, j) == GroupOf(ps, maxRegNum, i)
    requires i == 0 || GroupOf(ps, maxRegNum, i - 1) != GroupOf(ps, maxRegNum, i)
    requires Follows(ps, j) && Registers(ps, i, j) < maxRegNum
    ensures GroupOf(ps, maxRegNum, j + 1) == GroupOf(ps, maxRegNum, i)
  {
    MergedIff(ps, maxRegNum, i, j);
  }

  lemma {:induction false} LastIsMerged(ps: seq<Point>, maxRegNum: int, i: nat, j: nat)
    requires i < j < |ps| && (i == 0 || GroupOf(ps, maxRegNum, i - 1) != GroupOf(ps, maxRegNum, i))
    requires forall k :: i <= k < j ==> Follows(ps, k)
    requires Registers(ps, i, j - 1) < maxRegNum
    ensures GroupOf(ps, maxRegNum, j) == GroupOf(ps, maxRegNum, i)
  {
    if i + 1 < j {
      RegistersGrow(ps, i, j - 2, j - 1);
      LastIsMerged(ps, maxRegNum, i, j - 1);
    }
    NextIsMerged(ps, maxRegNum, i, j - 1);
  }

  /** Neighbours on one device, each starting where the one before ends or one register after its start, are merged
      into the group that the first one starts, as long as all but the last two have fewer registers than the limit. */
  lemma NeighboursAreMerged(ps: seq<Point>, maxRegNum: int, i: nat, j: nat)
    requires i < j < |ps| && (i == 0 || GroupOf(ps, maxRegNum, i - 1) != GroupOf(ps, maxRegNum, i))
    requires forall k :: i <= k < j ==>
      && ps[k].devId == ps[k + 1].devId && ps[k].devType == ps[k + 1].devType
      && (ps[k].regAddr + CalcRegister(ps[k].dataType) == ps[k + 1].regAddr || ps[k].regAddr + 1 == ps[k + 1].regAddr)
    requires Registers(ps, i, j - 1) < maxRegNum
    ensures forall k :: i <= k <= j ==> GroupOf(ps, maxRegNum, k) == GroupOf(ps, maxRegNum, i)
  {
    assert forall k :: i <= k < j ==> Follows(ps, k);
    LastIsMerged(ps, maxRegNum, i, j);
    forall k | i <= k <= j ensures GroupOf(ps, maxRegNum, k) == GroupOf(ps, maxRegNum, i) {
      GroupsGrow(ps, maxRegNum, i, k);
      GroupsGrow(ps, maxRegNum, k, j);
    }
  }

  /** A gapless list of one device below the limit is one group, from its first register to its last. */
  lemma GaplessIsOneGroup(ps: seq<Point>, maxRegNum: int)
    requires ps != [] && Registers(ps, 0, |ps| - 1) < maxRegNum
    requires forall k :: 0 <= k < |ps| - 1 ==>
      && ps[k].devId == ps[k + 1].devId && ps[k].devType == ps[k + 1].devType
      && ps[k].regAddr + CalcRegister(ps[k].dataType) == ps[k + 1].regAddr
    ensures var last := ps[|ps| - 1];
      Plan(ps, maxRegNum) == [ReqGroup(ps[0].regAddr, last.regAddr + CalcRegister(last.dataType) - 1)]
  {
    var n := |ps| - 1;
    if n > 0 {
      RegistersGrow(ps, 0, n - 1, n);
      NeighboursAreMerged(ps, maxRegNum, 0, n);
    }
    OnlyGroup(ps, maxRegNum);
  }

  lemma OnlyGroup(ps: seq<Point>, maxRegNum: int)
    requires ps != [] && GroupOf(ps, maxRegNum, |ps| - 1) == 0
    ensures Plan(ps, maxRegNum) == [ReqGroup(ps[0].regAddr, EndOf(ps[|ps| - 1]) - 1)]
  {
    StartOfGroup(ps, maxRegNum, 0, |ps| - 1);
  }

  /** Two 32-bit points at 10 and 12 share a request for the registers 10 to 13. */
  lemma WideNeighboursShareRequest(devId: uint16, devType: nat)
    ensures var ps := [Point(0, devId, devType, 10, Uint32), Point(1, devId, devType, 12, Uint32)];
      Plan(ps, 30) == [ReqGroup(10, 13)]
  {
    var ps := [Point(0, devId, devType, 10, Uint32), Point(1, devId, devType, 12, Uint32)];
    assert Registers(ps, 0, 1) == 2;
    GaplessIsOneGroup(ps, 30);
  }

  // ---------------------------------------------------------------- coverage of the points

  /** No point reaches beyond the end of a neighbour it could be merged with. */
  ghost predicate NoOverhang(ps: seq<Point>) {
    forall i :: 0 <= i < |ps| - 1 && CouldJoin(ps[i], ps[i + 1]) ==> EndOf(ps[i]) <= EndOf(ps[i + 1])
  }

  /** Every register of point `k` is requested by its group. */
  predicate Covered(ps: seq<Point>, maxRegNum: int, k: nat)
    requires k < |ps| && GroupOf(ps, maxRegNum, k) < |Plan(ps, maxRegNum)|
  {
    var g := Plan(ps, maxRegNum)[GroupOf(ps, maxRegNum, k)];
    g.startAddr <= ps[k].regAddr && EndOf(ps[k]) - 1 <= g.endAddr
  }

  /** A point is covered exactly when it does not end beyond the last point of its group. */
  lemma CoveredIffWithinLast(ps: seq<Point>, maxRegNum: int, k: nat)
    requires k < |ps| && ValidTypes(ps)
    ensures GroupOf(ps, maxRegNum, k) < |Plan(ps, maxRegNum)|
    ensures Covered(ps, maxRegNum, k) <==> EndOf(ps[k]) <= EndOf(ps[Last(ps, maxRegNum, k)])
  {
    EntryOf(ps, maxRegNum, k);
    GroupWidthIsBounded(ps, maxRegNum, k);
  }

  /** The group is left open after none of the points from `k` to before `l`, and ends with `l`. */
  ghost predicate BreaksAt(ps: seq<Point>, maxRegNum: int, k: nat, l: nat) {
    && k <= l < |ps|
    && (forall i :: k <= i < l ==> Joined(ps, maxRegNum, i))
    && (l + 1 < |ps| ==> !Joined(ps, maxRegNum, l))
  }

  /** No point ends beyond the point at which its run of joined neighbours breaks. */
  ghost predicate NoneSticksOut(ps: seq<Point>, maxRegNum: int) {
    forall k: nat, l: nat :: BreaksAt(ps, maxRegNum, k, l) ==> EndOf(ps[k]) <= EndOf(ps[l])
  }

  lemma {:induction false} BreaksAtLast(ps: seq<Point>, maxRegNum: int, k: nat, l: nat)
    requires BreaksAt(ps, maxRegNum, k, l)
    ensures l == Last(ps, maxRegNum, k)
    decreases l - k
  {
    if k < l {
      assert Joined(ps, maxRegNum, k);
      BreaksAtLast(ps, maxRegNum, k + 1, l);
    }
  }

  /** At any one limit, as the 30 in use: all points are covered exactly when none sticks out where its group breaks. */
  lemma CoveredIffNoneSticksOut(ps: seq<Point>, maxRegNum: int)
    requires ValidTypes(ps)
    ensures NoneSticksOut(ps, maxRegNum) <==>
      forall k: nat :: k < |ps| ==>
        GroupOf(ps, maxRegNum, k) < |Plan(ps, maxRegNum)| && Covered(ps, maxRegNum, k)
  {
    forall k: nat | k < |ps|
      ensures GroupOf(ps, maxRegNum, k) < |Plan(ps, maxRegNum)|
      ensures BreaksAt(ps, maxRegNum, k, Last(ps, maxRegNum, k))
      ensures Covered(ps, maxRegNum, k) <==> EndOf(ps[k]) <= EndOf(ps[Last(ps, maxRegNum, k)])
    {
      CoveredIffWithinLast(ps, maxRegNum, k);
      JoinedToLast(ps, maxRegNum, k);
      LastEnds(ps, maxRegNum, k);
    }
    forall k: nat, l: nat | BreaksAt(ps, maxRegNum, k, l) ensures l == Last(ps, maxRegNum, k) {
      BreaksAtLast(ps, maxRegNum, k, l);
    }
  }

  lemma {:induction false} EndsClimb(ps: seq<Point>, maxRegNum: int, k: nat)
    requires k < |ps| && NoOverhang(ps)
    ensures EndOf(ps[k]) <= EndOf(ps[Last(ps, maxRegNum, k)])
    decreases |ps| - k
  {
    if Last(ps, maxRegNum, k) != k {
      EndsClimb(ps, maxRegNum, k + 1);
    }
  }

  lemma NoOverhangIsCovered(ps: seq<Point>, maxRegNum: int, k: nat)
    requires k < |ps| && ValidTypes(ps) && NoOverhang(ps)
    ensures GroupOf(ps, maxRegNum, k) < |Plan(ps, maxRegNum)| && Covered(ps, maxRegNum, k)
  {
    EntryOf(ps, maxRegNum, k);
    GroupWidthIsBounded(ps, maxRegNum, k);
    EndsClimb(ps, maxRegNum, k);
  }

  /** Registers in the chain of mergeable points before `i`, with no limit on the group. */
  function ChainLen(ps: seq<Point>, i: nat): nat
    requires i < |ps|
  {
    if i == 0 || !CouldJoin(ps[i - 1], ps[i]) then 0
    else ChainLen(ps, i - 1) + CalcRegister(ps[i - 1].dataType)
  }

  lemma {:induction false} ShortChainsStay(ps: seq<Point>, maxRegNum: int, i: nat)
    requires i < |ps| && ValidTypes(ps) && ChainLen(ps, i) < maxRegNum
    ensures NewLen(ps, maxRegNum, i) == ChainLen(ps, i)
  {
    if i != 0 && CouldJoin(ps[i - 1], ps[i]) {
      ShortChainsStay(ps, maxRegNum, i - 1);
    }
  }

  /** With a limit that ends the group right after it, a neighbour that falls short leaves `i` uncovered. */
  lemma OverhangIsLost(ps: seq<Point>, i: nat)
    requires i + 1 < |ps| && ValidTypes(ps)
    requires CouldJoin(ps[i], ps[i + 1]) && EndOf(ps[i]) > EndOf(ps[i + 1])
    ensures var limit := ChainLen(ps, i) + 1;
      GroupOf(ps, limit, i) < |Plan(ps, limit)| && !Covered(ps, limit, i)
  {
    var limit := ChainLen(ps, i) + 1;
    ShortChainsStay(ps, limit, i);
    assert Joined(ps, limit, i) && NewLen(ps, limit, i + 1) >= limit;
    assert Last(ps, limit, i + 1) == i + 1;
    EntryOf(ps, limit, i);
  }

  /** Over all limits together: every point is covered whatever the limit, exactly when no point overhangs its
      neighbour. At a single limit this is sufficient but not necessary. */
  lemma CoveredIffNoOverhang(ps: seq<Point>)
    requires ValidTypes(ps)
    ensures NoOverhang(ps) <==>
      forall maxRegNum: int, k: nat :: k < |ps| ==>
        GroupOf(ps, maxRegNum, k) < |Plan(ps, maxRegNum)| && Covered(ps, maxRegNum, k)
  {
    if NoOverhang(ps) {
      forall maxRegNum: int, k: nat | k < |ps|
        ensures GroupOf(ps, maxRegNum, k) < |Plan(ps, maxRegNum)| && Covered(ps, maxRegNum, k)
      {
        NoOverhangIsCovered(ps, maxRegNum, k);
      }
    } else {
      var i :| 0 <= i < |ps| - 1 && CouldJoin(ps[i], ps[i + 1]) && EndOf(ps[i]) > EndOf(ps[i + 1]);
      OverhangIsLost(ps, i);
    }
  }

  /** An overhang need not show at a given limit: with 30, the third point makes up for the second. */
  lemma OverhangMayBeCovered()
    ensures var ps := [Point(0, 0, 0, 10, Uint64), Point(1, 0, 0, 11, Uint16), Point(2, 0, 0, 12, Uint64)];
      ValidTypes(ps) && !NoOverhang(ps) && Plan(ps, 30) == [ReqGroup(10, 15)] && NoneSticksOut(ps, 30)
  {
    var ps := [Point(0, 0, 0, 10, Uint64), Point(1, 0, 0, 11, Uint16), Point(2, 0, 0, 12, Uint64)];
    assert CouldJoin(ps[0], ps[0 + 1]) && EndOf(ps[0]) > EndOf(ps[0 + 1]);
    assert NewLen(ps, 30, 0) == 0 && Joined(ps, 30, 0);
    assert NewLen(ps, 30, 1) == 4 && Joined(ps, 30, 1);
    assert Grouped(ps, 30, 0) == [ReqGroup(10, 13)];
    assert Grouped(ps, 30, 1) == [ReqGroup(10, 11)];
    assert Grouped(ps, 30, 2) == [ReqGroup(10, 15)];
    forall k: nat, l: nat | BreaksAt(ps, 30, k, l) ensures l == 2 {
      assert l == 0 || l == 1 || l == 2;
    }
  }

  /** With the limit of 30 in use: a 64-bit value at 10 and a 16-bit value at 11 are merged into 10..11, so half of
      the 64-bit value is never requested. */
  lemma OverhangHappens()
    ensures var ps := [Point(0, 0, 0, 10, Uint64), Point(1, 0, 0, 11, Uint16)];
      ValidTypes(ps) && Plan(ps, 30) == [ReqGroup(10, 11)] && EndOf(ps[0]) - 1 == 13
  {
    var ps := [Point(0, 0, 0, 10, Uint64), Point(1, 0, 0, 11, Uint16)];
    assert NewLen(ps, 30, 0) == 0 && Joined(ps, 30, 0);
    assert Grouped(ps, 30, 0) == [ReqGroup(10, 13)];
    assert Grouped(ps, 30, 1) == [ReqGroup(10, 11)];
  }
}
