/** Choice of the clusters that may be paralleled, and of the master among them. */
module ClusterSelection {
  import opened MachineInts

  const MAX_CLUSTER_NUM := 20

  datatype Cluster = Cluster(online: bool, ready: bool, fault: bool,
                             voltage: uint16, contactorOn: bool, selected: bool)

  datatype Config = Config(minOnline: uint8, allowVoltDiff: uint8,
                           powerOnTimeoutMs: uint32, powerOffTimeoutMs: uint32)

  // ---------------------------------------------------------------- specification

  predicate IsCandidate(cs: seq<Cluster>, rbmsNum: uint16, i: nat) {
    i < |cs| && i < MAX_CLUSTER_NUM && i < rbmsNum &&
    cs[i].online && cs[i].ready && !cs[i].fault
  }

  ghost predicate Distinct(list: seq<nat>) {
    forall a, b :: 0 <= a < b < |list| ==> list[a] != list[b]
  }

  predicate InRange(cs: seq<Cluster>, list: seq<nat>) {
    forall k :: 0 <= k < |list| ==> list[k] < |cs|
  }

  /** Ascending in voltage, and in number where voltages are equal. */
  ghost predicate VoltageAscending(cs: seq<Cluster>, list: seq<nat>)
    requires InRange(cs, list)
  {
    forall a, b :: 0 <= a < b < |list| ==>
      cs[list[a]].voltage < cs[list[b]].voltage || (cs[list[a]].voltage == cs[list[b]].voltage && list[a] < list[b])
  }

  /** `s` holds candidates only, and any two of them are at most `diff` volts apart. */
  ghost predicate Compatible(cs: seq<Cluster>, rbmsNum: uint16, diff: uint8, s: set<nat>) {
    && (forall i :: i in s ==> IsCandidate(cs, rbmsNum, i))
    && (forall i, j :: i in s && j in s ==> cs[i].voltage - cs[j].voltage <= diff)
  }

  function Members(list: seq<nat>): set<nat> {
    set i | i in list
  }

  /** What a successful selection promises: no compatible set of candidates, contiguous in voltage or
      not, is larger; among the largest ones, the one lowest in voltage is taken. */
  ghost predicate SelectionSucceeds(cs: seq<Cluster>, rbmsNum: uint16, cfg: Config, list: seq<nat>) {
    && 1 <= |list| <= MAX_CLUSTER_NUM
    && cfg.minOnline <= |list|
    && Distinct(list)
    && Compatible(cs, rbmsNum, cfg.allowVoltDiff, Members(list))
    && InRange(cs, list)
    && VoltageAscending(cs, list)
    && (forall s: set<nat> :: Compatible(cs, rbmsNum, cfg.allowVoltDiff, s) ==>
          |s| <= |list| &&
          (|s| == |list| ==> forall i :: i in s ==> cs[list[0]].voltage <= cs[i].voltage))
  }

  ghost predicate SelectionFails(cs: seq<Cluster>, rbmsNum: uint16, cfg: Config) {
    || (forall i: nat :: !IsCandidate(cs, rbmsNum, i))
    || (forall s: set<nat> :: Compatible(cs, rbmsNum, cfg.allowVoltDiff, s) ==> |s| < cfg.minOnline)
  }

  lemma SizeOfDistinct(list: seq<nat>)
    requires Distinct(list)
    ensures |Members(list)| == |list|
  {
    if list != [] {
      var rest := list[..|list| - 1];
      SizeOfDistinct(rest);
      assert list == rest + [list[|list| - 1]];
      assert Members(list) == Members(rest) + {list[|list| - 1]};
    }
  }

  /** Success and failure exclude each other, so failure means that no acceptable set exists. */
  lemma SelectionIsDecided(cs: seq<Cluster>, rbmsNum: uint16, cfg: Config, list: seq<nat>)
    requires SelectionSucceeds(cs, rbmsNum, cfg, list)
    ensures !SelectionFails(cs, rbmsNum, cfg)
  {
    SizeOfDistinct(list);
    assert list[0] in Members(list);
    assert IsCandidate(cs, rbmsNum, list[0]);
  }

  /** The clusters that a selection may take and whose voltage is at most `diff` above `v`. */
  ghost predicate FitsAbove(cs: seq<Cluster>, rbmsNum: uint16, diff: uint8, v: int, i: nat) {
    IsCandidate(cs, rbmsNum, i) && v <= cs[i].voltage <= v + diff
  }

  /** A selection takes all of the clusters that fit above its lowest one. */
  lemma SelectionTakesAllThatFit(cs: seq<Cluster>, rbmsNum: uint16, cfg: Config, list: seq<nat>, i: nat)
    requires SelectionSucceeds(cs, rbmsNum, cfg, list)
    ensures i in list <==> FitsAbove(cs, rbmsNum, cfg.allowVoltDiff, cs[list[0]].voltage, i)
  {
    var v := cs[list[0]].voltage;
    assert list[0] in Members(list);
    forall j | j in Members(list) ensures FitsAbove(cs, rbmsNum, cfg.allowVoltDiff, v, j) {
      var k :| 0 <= k < |list| && list[k] == j;
    }
    if i in list {
      assert i in Members(list);
    } else if FitsAbove(cs, rbmsNum, cfg.allowVoltDiff, v, i) {
      SizeOfDistinct(list);
      assert Compatible(cs, rbmsNum, cfg.allowVoltDiff, Members(list) + {i});
      assert false;
    }
  }

  lemma LastIsHighest(cs: seq<Cluster>, list: seq<nat>, i: nat)
    requires InRange(cs, list) && VoltageAscending(cs, list) && i in list
    ensures var last := list[|list| - 1];
      i == last || cs[i].voltage < cs[last].voltage || (cs[i].voltage == cs[last].voltage && i < last)
  {
  }

  lemma LastsAgree(cs: seq<Cluster>, x: seq<nat>, y: seq<nat>)
    requires InRange(cs, x) && InRange(cs, y) && VoltageAscending(cs, x) && VoltageAscending(cs, y)
    requires x != [] && y != [] && x[|x| - 1] in y && y[|y| - 1] in x
    ensures x[|x| - 1] == y[|y| - 1]
  {
    LastIsHighest(cs, x, y[|y| - 1]);
    LastIsHighest(cs, y, x[|x| - 1]);
  }

  lemma MemberOfRest(cs: seq<Cluster>, list: seq<nat>, i: nat)
    requires InRange(cs, list) && VoltageAscending(cs, list) && list != []
    ensures i in list[..|list| - 1] <==> i in list && i != list[|list| - 1]
  {
    assert list == list[..|list| - 1] + [list[|list| - 1]];
  }

  lemma PrefixInOrder(cs: seq<Cluster>, list: seq<nat>)
    requires InRange(cs, list) && VoltageAscending(cs, list) && list != []
    ensures InRange(cs, list[..|list| - 1]) && VoltageAscending(cs, list[..|list| - 1])
  {
  }

  lemma SameRests(cs: seq<Cluster>, x: seq<nat>, y: seq<nat>, x': seq<nat>, y': seq<nat>)
    requires InRange(cs, x) && InRange(cs, y) && VoltageAscending(cs, x) && VoltageAscending(cs, y)
    requires x != [] && y != [] && x[|x| - 1] == y[|y| - 1] && forall i: nat :: i in x <==> i in y
    requires x' == x[..|x| - 1] && y' == y[..|y| - 1]
    ensures forall i: nat :: i in x' <==> i in y'
  {
    forall i: nat ensures i in x' <==> i in y' {
      MemberOfRest(cs, x, i);
      MemberOfRest(cs, y, i);
    }
  }

  lemma {:induction false} OrderIsUnique(cs: seq<Cluster>, x: seq<nat>, y: seq<nat>)
    requires InRange(cs, x) && InRange(cs, y) && VoltageAscending(cs, x) && VoltageAscending(cs, y)
    requires forall i: nat :: i in x <==> i in y
    ensures x == y
  {
    assert (x != [] ==> x[0] in y) && (y != [] ==> y[0] in x);
    if x != [] {
      LastsAgree(cs, x, y);
      SameRests(cs, x, y, x[..|x| - 1], y[..|y| - 1]);
      PrefixInOrder(cs, x);
      PrefixInOrder(cs, y);
      OrderIsUnique(cs, x[..|x| - 1], y[..|y| - 1]);
      assert x == x[..|x| - 1] + [x[|x| - 1]] && y == y[..|y| - 1] + [y[|y| - 1]];
    }
  }

  /** The promise leaves no choice: one snapshot, one selection, in one order. */
  lemma SelectionIsUnique(cs: seq<Cluster>, rbmsNum: uint16, cfg: Config, x: seq<nat>, y: seq<nat>)
    requires SelectionSucceeds(cs, rbmsNum, cfg, x) && SelectionSucceeds(cs, rbmsNum, cfg, y)
    ensures x == y
  {
    SizeOfDistinct(x);
    SizeOfDistinct(y);
    assert x[0] in Members(x) && y[0] in Members(y);
    assert cs[x[0]].voltage == cs[y[0]].voltage;
    forall i: nat ensures i in x <==> i in y {
      SelectionTakesAllThatFit(cs, rbmsNum, cfg, x, i);
      SelectionTakesAllThatFit(cs, rbmsNum, cfg, y, i);
    }
    OrderIsUnique(cs, x, y);
  }

  /** Compatible sets in fields: configured racks that are online, ready and fault-free, no two more than the limit
      apart. */
  lemma CompatibleInFields(cs: seq<Cluster>, rbmsNum: uint16, diff: uint8, s: set<nat>)
    requires |cs| == 20
    ensures Compatible(cs, rbmsNum, diff, s) <==>
      && (forall i :: i in s ==> i < 20 && i < rbmsNum && cs[i].online && cs[i].ready && !cs[i].fault)
      && (forall i, j :: i in s && j in s ==> cs[i].voltage <= cs[j].voltage + diff)
  {
  }

  /** What a selection is, in fields: healthy configured racks within the limit, lowest voltage first; at least the
      minimum; and no set of such racks is larger, nor as large and lower. */
  lemma SelectionInFields(cs: seq<Cluster>, rbmsNum: uint16, cfg: Config, list: seq<nat>)
    requires |cs| == 20 && SelectionSucceeds(cs, rbmsNum, cfg, list)
    ensures |list| >= 1 && |list| >= cfg.minOnline
    ensures forall k :: 0 <= k < |list| ==>
      var i := list[k]; i < 20 && i < rbmsNum && cs[i].online && cs[i].ready && !cs[i].fault
    ensures forall a, b :: 0 <= a < b < |list| ==>
      && cs[list[b]].voltage <= cs[list[a]].voltage + cfg.allowVoltDiff
      && (cs[list[a]].voltage < cs[list[b]].voltage
          || (cs[list[a]].voltage == cs[list[b]].voltage && list[a] < list[b]))
    ensures forall s: set<nat> ::
      && (forall i :: i in s ==> i < 20 && i < rbmsNum && cs[i].online && cs[i].ready && !cs[i].fault)
      && (forall i, j :: i in s && j in s ==> cs[i].voltage <= cs[j].voltage + cfg.allowVoltDiff)
      ==> |s| <= |list| && (|s| == |list| ==> forall i :: i in s ==> cs[list[0]].voltage <= cs[i].voltage)
  {
    forall k | 0 <= k < |list| ensures list[k] in Members(list) {
    }
    forall s: set<nat> |
      && (forall i :: i in s ==> i < 20 && i < rbmsNum && cs[i].online && cs[i].ready && !cs[i].fault)
      && (forall i, j :: i in s && j in s ==> cs[i].voltage <= cs[j].voltage + cfg.allowVoltDiff)
      ensures |s| <= |list| && (|s| == |list| ==> forall i :: i in s ==> cs[list[0]].voltage <= cs[i].voltage)
    {
      CompatibleInFields(cs, rbmsNum, cfg.allowVoltDiff, s);
    }
  }

  /** The selection fails exactly when every set of such racks has less than the minimum, or is empty. */
  lemma FailureInFields(cs: seq<Cluster>, rbmsNum: uint16, cfg: Config)
    requires |cs| == 20
    ensures SelectionFails(cs, rbmsNum, cfg) <==>
      forall s: set<nat> ::
        && (forall i :: i in s ==> i < 20 && i < rbmsNum && cs[i].online && cs[i].ready && !cs[i].fault)
        && (forall i, j :: i in s && j in s ==> cs[i].voltage <= cs[j].voltage + cfg.allowVoltDiff)
        ==> |s| < cfg.minOnline || s == {}
  {
    if SelectionFails(cs, rbmsNum, cfg) {
      forall s: set<nat> |
        && (forall i :: i in s ==> i < 20 && i < rbmsNum && cs[i].online && cs[i].ready && !cs[i].fault)
        && (forall i, j :: i in s && j in s ==> cs[i].voltage <= cs[j].voltage + cfg.allowVoltDiff)
        ensures |s| < cfg.minOnline || s == {}
      {
        CompatibleInFields(cs, rbmsNum, cfg.allowVoltDiff, s);
        if i :| i in s {
          assert IsCandidate(cs, rbmsNum, i);
        }
      }
    } else {
      var i: nat :| IsCandidate(cs, rbmsNum, i);
      var s: set<nat> :| Compatible(cs, rbmsNum, cfg.allowVoltDiff, s) && |s| >= cfg.minOnline;
      var t := if s == {} then {i} else s;
      CompatibleInFields(cs, rbmsNum, cfg.allowVoltDiff, t);
      assert |t| >= cfg.minOnline && t != {};
    }
  }

  // ---------------------------------------------------------------- candidates

  method GetBmsCandidateClusters(cs: array<Cluster>, rbmsNum: uint16) returns (list: seq<nat>)
    requires cs.Length == MAX_CLUSTER_NUM
    ensures forall a, b :: 0 <= a < b < |list| ==> list[a] < list[b]
    ensures forall i: nat :: i in list <==> IsCandidate(cs[..], rbmsNum, i)
    ensures |list| <= MAX_CLUSTER_NUM
  {
    list := [];
    ghost var s := cs[..];
    var validClusters := if rbmsNum > MAX_CLUSTER_NUM then MAX_CLUSTER_NUM else rbmsNum;
    for i := 0 to validClusters
      invariant |list| <= i && forall k :: 0 <= k < |list| ==> list[k] < i
      invariant forall a, b :: 0 <= a < b < |list| ==> list[a] < list[b]
      invariant forall k: nat :: k in list <==> k < i && IsCandidate(s, rbmsNum, k)
    {
      if cs[i].online && cs[i].ready && !cs[i].fault {
        list := list + [i];
      }
    }
  }

  // ---------------------------------------------------------------- bubble sort over two arrays

  /** Every id has its own voltage beside it, and ids of equal voltage are in ascending order. */
  ghost predicate Paired(volt: seq<int>, ids: seq<nat>, vs: seq<int>) {
    && |ids| == |vs|
    && (forall k :: 0 <= k < |ids| ==> ids[k] < |volt| && vs[k] == volt[ids[k]])
    && (forall a, b :: 0 <= a < b < |ids| && vs[a] == vs[b] ==> ids[a] < ids[b])
  }

  ghost predicate Ascending(vs: seq<int>) {
    forall a, b :: 0 <= a < b < |vs| ==> vs[a] <= vs[b]
  }

  function SwappedAt<T>(s: seq<T>, j: nat): seq<T>
    requires j + 1 < |s|
  {
    s[j := s[j + 1]][j + 1 := s[j]]
  }

  lemma SwapKeepsMultiset(s: seq<nat>, j: nat)
    requires j + 1 < |s|
    ensures multiset(SwappedAt(s, j)) == multiset(s)
  {
    assert s == s[..j] + [s[j], s[j + 1]] + s[j + 2..];
    assert SwappedAt(s, j) == s[..j] + [s[j + 1], s[j]] + s[j + 2..];
  }

  method SwapAt(ids: array<nat>, vs: array<int>, j: nat)
    requires ids.Length == vs.Length && j + 1 < vs.Length
    modifies ids, vs
    ensures ids[..] == SwappedAt(old(ids[..]), j) && vs[..] == SwappedAt(old(vs[..]), j)
    ensures multiset(ids[..]) == old(multiset(ids[..]))
  {
    ghost var before := ids[..];
    var tmpV := vs[j];
    vs[j] := vs[j + 1];
    vs[j + 1] := tmpV;
    var tmpId := ids[j];
    ids[j] := ids[j + 1];
    ids[j + 1] := tmpId;
    SwapKeepsMultiset(before, j);
  }

  /** The last `i` places hold the largest voltages, in order. */
  ghost predicate TailSettled(vs: seq<int>, i: nat) {
    forall a, b :: 0 <= a < b < |vs| && |vs| - i <= b ==> vs[a] <= vs[b]
  }

  /** Within a pass: the largest voltage met so far stands at `j`. */
  ghost predicate PassAt(volt: seq<int>, ids: seq<nat>, vs: seq<int>, i: nat, j: nat) {
    && Paired(volt, ids, vs) && TailSettled(vs, i) && j + i < |vs|
    && forall a :: 0 <= a < j ==> vs[a] <= vs[j]
  }

  lemma PassSwaps(volt: seq<int>, ids: seq<nat>, vs: seq<int>, i: nat, j: nat)
    requires PassAt(volt, ids, vs, i, j) && j + 1 + i < |vs| && vs[j] > vs[j + 1]
    ensures PassAt(volt, SwappedAt(ids, j), SwappedAt(vs, j), i, j + 1)
  {
  }

  lemma PassSkips(volt: seq<int>, ids: seq<nat>, vs: seq<int>, i: nat, j: nat)
    requires PassAt(volt, ids, vs, i, j) && j + 1 + i < |vs| && vs[j] <= vs[j + 1]
    ensures PassAt(volt, ids, vs, i, j + 1)
  {
  }

  lemma PassEnds(volt: seq<int>, ids: seq<nat>, vs: seq<int>, i: nat, j: nat)
    requires PassAt(volt, ids, vs, i, j) && j + 1 + i == |vs|
    ensures TailSettled(vs, i + 1)
  {
  }

  method CompareAndSwap(ids: array<nat>, vs: array<int>, ghost volt: seq<int>, i: nat, j: nat)
    requires j + 1 + i < vs.Length && PassAt(volt, ids[..], vs[..], i, j)
    modifies ids, vs
    ensures PassAt(volt, ids[..], vs[..], i, j + 1)
    ensures multiset(ids[..]) == old(multiset(ids[..]))
  {
    if vs[j] > vs[j + 1] {
      PassSwaps(volt, ids[..], vs[..], i, j);
      SwapAt(ids, vs, j);
    } else {
      PassSkips(volt, ids[..], vs[..], i, j);
    }
  }

  method BubblePass(ids: array<nat>, vs: array<int>, ghost volt: seq<int>, i: nat)
    requires i < vs.Length - 1
    requires Paired(volt, ids[..], vs[..]) && TailSettled(vs[..], i)
    modifies ids, vs
    ensures Paired(volt, ids[..], vs[..]) && TailSettled(vs[..], i + 1)
    ensures multiset(ids[..]) == old(multiset(ids[..]))
  {
    for j := 0 to vs.Length - 1 - i
      invariant PassAt(volt, ids[..], vs[..], i, j)
      invariant multiset(ids[..]) == old(multiset(ids[..]))
    {
      CompareAndSwap(ids, vs, volt, i, j);
    }
    PassEnds(volt, ids[..], vs[..], i, vs.Length - 1 - i);
  }

  method SortByVoltage(ids: array<nat>, vs: array<int>, ghost volt: seq<int>)
    requires Paired(volt, ids[..], vs[..])
    modifies ids, vs
    ensures Paired(volt, ids[..], vs[..])
    ensures multiset(ids[..]) == old(multiset(ids[..]))
    ensures Ascending(vs[..])
  {
    var i := 0;
    while i < vs.Length - 1
      invariant 0 <= i <= vs.Length
      invariant i < vs.Length || vs.Length == 0
      invariant Paired(volt, ids[..], vs[..]) && TailSettled(vs[..], i)
      invariant multiset(ids[..]) == old(multiset(ids[..]))
    {
      BubblePass(ids, vs, volt, i);
      i := i + 1;
    }
  }

  // ---------------------------------------------------------------- sliding window

  /** The window `[head, tail]` of the sorted voltages spans at most `diff`. */
  predicate WindowFits(vs: seq<int>, diff: int, head: nat, tail: nat) {
    head <= tail < |vs| && vs[tail] - vs[head] <= diff
  }

  method LargestWindow(vs: array<int>, diff: uint8) returns (bestStart: nat, bestLen: nat)
    requires 0 < vs.Length && Ascending(vs[..])
    ensures 1 <= bestLen && WindowFits(vs[..], diff, bestStart, bestStart + bestLen - 1)
    ensures forall a: nat, b: nat :: WindowFits(vs[..], diff, a, b) ==>
              b - a + 1 < bestLen || (b - a + 1 == bestLen && bestStart <= a)
  {
    bestStart, bestLen := 0, 0;
    var head := 0;
    ghost var s := vs[..];
    for tail := 0 to vs.Length
      invariant s == vs[..]
      invariant head <= tail
      invariant forall a: nat, b: nat :: a < head && tail <= b ==> !WindowFits(s, diff, a, b)
      invariant tail == 0 ==> bestLen == 0
      invariant tail > 0 ==> 1 <= bestLen && WindowFits(s, diff, bestStart, bestStart + bestLen - 1)
      invariant tail > 0 ==> bestStart + bestLen - 1 < tail && bestStart <= head
      invariant forall a: nat, b: nat :: b < tail && WindowFits(s, diff, a, b) ==>
                  b - a + 1 < bestLen || (b - a + 1 == bestLen && bestStart <= a)
    {
      while vs[tail] - vs[head] > diff
        invariant head <= tail
        decreases tail - head
        invariant tail > 0 ==> bestStart <= head
        invariant forall a: nat, b: nat :: a < head && tail <= b ==> !WindowFits(s, diff, a, b)
      {
        head := head + 1;
      }
      var curLen := tail - head + 1;
      assert WindowFits(s, diff, head, tail);
      if curLen > bestLen {
        bestLen := curLen;
        bestStart := head;
      }
    }
  }

  // ---------------------------------------------------------------- optimality over all subsets

  /** A finite set of positions inside `[lo, hi]` has at most `hi - lo + 1` elements. */
  lemma {:induction false} PositionsBound(ps: set<nat>, lo: nat, hi: int)
    requires forall p :: p in ps ==> lo <= p <= hi
    requires lo <= hi + 1
    ensures |ps| <= hi - lo + 1
    decreases hi + 1 - lo
  {
    if lo <= hi {
      PositionsBound(ps - {lo}, lo + 1, hi);
    } else {
      assert ps == {};
    }
  }

  /** Any compatible set fits into a window of the sorted order that is at least as long. */
  lemma CompatibleFitsWindow(ids: seq<nat>, vs: seq<int>, diff: int, s: set<nat>)
    returns (a: nat, b: nat)
    requires |ids| == |vs| && Distinct(ids) && Ascending(vs) && s != {}
    requires forall i :: i in s ==> i in ids
    requires forall p, q :: 0 <= p < |ids| && 0 <= q < |ids| && ids[p] in s && ids[q] in s ==> vs[p] - vs[q] <= diff
    ensures WindowFits(vs, diff, a, b) && |s| <= b - a + 1
    ensures forall p :: 0 <= p < |ids| && ids[p] in s ==> a <= p <= b
  {
    var ps: set<nat> := set p: nat | p < |ids| && ids[p] in s;
    var i0 :| i0 in s;
    var p0: nat :| p0 < |ids| && ids[p0] == i0;
    assert p0 in ps;
    a := LeastOf(ps);
    b := GreatestOf(ps);
    PositionsBound(ps, a, b);
    CountThroughPositions(ids, s, ps);
  }

  lemma LeastOf(ps: set<nat>) returns (m: nat)
    requires ps != {}
    ensures m in ps && forall p :: p in ps ==> m <= p
  {
    var first :| first in ps;
    m := first;
    if p :| p in ps && p < m {
      var rest := ps - {first};
      assert p in rest;
      m := LeastOf(rest);
      assert forall q :: q in ps ==> q == first || q in rest;
    }
  }

  lemma GreatestOf(ps: set<nat>) returns (m: nat)
    requires ps != {}
    ensures m in ps && forall p :: p in ps ==> p <= m
  {
    var first :| first in ps;
    m := first;
    if p :| p in ps && m < p {
      var rest := ps - {first};
      assert p in rest;
      m := GreatestOf(rest);
      assert forall q :: q in ps ==> q == first || q in rest;
    }
  }

  lemma {:induction false} CountThroughPositions(ids: seq<nat>, s: set<nat>, ps: set<nat>)
    requires forall i :: i in s ==> exists p :: p in ps && p < |ids| && ids[p] == i
    ensures |s| <= |ps|
    decreases ps
  {
    if s != {} {
      var i :| i in s;
      var p :| p in ps && p < |ids| && ids[p] == i;
      forall k | k in s - {i} ensures exists q :: q in ps - {p} && q < |ids| && ids[q] == k {
        var q :| q in ps && q < |ids| && ids[q] == k;
        assert q in ps - {p};
      }
      CountThroughPositions(ids, s - {i}, ps - {p});
    }
  }

  // ---------------------------------------------------------------- the whole selection

  ghost function Voltages(cs: seq<Cluster>): seq<int> {
    seq(|cs|, i requires 0 <= i < |cs| => cs[i].voltage)
  }

  /** Copies the candidates and their voltages into two parallel arrays. */
  method LoadCandidates(cs: array<Cluster>, candidate: seq<nat>) returns (sorted: array<nat>, sortedV: array<int>)
    requires InRange(cs[..], candidate)
    requires forall a, b :: 0 <= a < b < |candidate| ==> candidate[a] < candidate[b]
    ensures fresh(sorted) && fresh(sortedV)
    ensures sorted[..] == candidate && Paired(Voltages(cs[..]), sorted[..], sortedV[..])
  {
    var cnt := |candidate|;
    sorted, sortedV := new nat[cnt], new int[cnt];
    for i := 0 to cnt
      invariant sorted[..i] == candidate[..i]
      invariant forall k :: 0 <= k < i ==> sortedV[k] == cs[candidate[k]].voltage
    {
      sorted[i] := candidate[i];
      sortedV[i] := cs[candidate[i]].voltage;
    }
    assert sorted[..cnt] == candidate[..cnt] == candidate;
  }

  /** The candidates in two parallel arrays, sorted by voltage. */
  method SortCandidates(cs: array<Cluster>, rbmsNum: uint16, candidate: seq<nat>)
    returns (sorted: array<nat>, sortedV: array<int>)
    requires cs.Length == MAX_CLUSTER_NUM && |candidate| <= MAX_CLUSTER_NUM
    requires forall a, b :: 0 <= a < b < |candidate| ==> candidate[a] < candidate[b]
    requires forall i: nat :: i in candidate <==> IsCandidate(cs[..], rbmsNum, i)
    ensures fresh(sorted) && fresh(sortedV) && sorted.Length == |candidate|
    ensures SortedCandidates(cs[..], rbmsNum, sorted[..], sortedV[..])
  {
    assert forall k :: 0 <= k < |candidate| ==> candidate[k] in candidate;
    sorted, sortedV := LoadCandidates(cs, candidate);
    SortByVoltage(sorted, sortedV, Voltages(cs[..]));
    SortKeepsCandidates(candidate, sorted[..]);
  }

  method BuildValidClusterSet(cs: array<Cluster>, rbmsNum: uint16, cfg: Config)
    returns (ok: bool, list: seq<nat>)
    requires cs.Length == MAX_CLUSTER_NUM
    ensures ok ==> SelectionSucceeds(cs[..], rbmsNum, cfg, list)
    ensures !ok ==> SelectionFails(cs[..], rbmsNum, cfg)
  {
    var candidate := GetBmsCandidateClusters(cs, rbmsNum);
    if |candidate| == 0 {
      assert forall i: nat :: IsCandidate(cs[..], rbmsNum, i) ==> i in candidate;
      return false, [];
    }
    var sorted, sortedV := SortCandidates(cs, rbmsNum, candidate);
    var bestStart, bestLen := LargestWindow(sortedV, cfg.allowVoltDiff);
    list := sorted[bestStart..bestStart + bestLen];
    WindowIsLargestSet(cs[..], rbmsNum, cfg, sorted[..], sortedV[..], bestStart, bestLen);
    ok := bestLen >= cfg.minOnline;
  }

  lemma SortKeepsCandidates(candidate: seq<nat>, sorted: seq<nat>)
    requires multiset(sorted) == multiset(candidate)
    requires forall a, b :: 0 <= a < b < |candidate| ==> candidate[a] < candidate[b]
    ensures |sorted| == |candidate| && Distinct(sorted)
    ensures forall i :: i in sorted <==> i in candidate
  {
    assert |multiset(sorted)| == |multiset(candidate)|;
    forall i ensures i in sorted <==> i in candidate {
      assert i in sorted <==> i in multiset(sorted);
    }
    if a, b :| 0 <= a < b < |sorted| && sorted[a] == sorted[b] {
      var x := sorted[a];
      assert sorted == sorted[..a] + [x] + sorted[a + 1..b] + [x] + sorted[b + 1..];
      assert multiset(sorted)[x] >= 2;
      StrictHasNoRepeats(candidate, x);
    }
  }

  lemma {:induction false} StrictHasNoRepeats(list: seq<nat>, x: nat)
    requires forall a, b :: 0 <= a < b < |list| ==> list[a] < list[b]
    ensures multiset(list)[x] <= 1
  {
    if list != [] {
      var rest := list[..|list| - 1];
      var last := list[|list| - 1];
      assert list == rest + [last];
      StrictHasNoRepeats(rest, x);
      if last == x {
        assert x !in rest;
        assert x !in multiset(rest);
      }
    }
  }

  /** `ids` are all candidates in ascending voltage, and `vs` their voltages. */
  ghost predicate SortedCandidates(cs: seq<Cluster>, rbmsNum: uint16, ids: seq<nat>, vs: seq<int>) {
    && |cs| == MAX_CLUSTER_NUM && |ids| <= MAX_CLUSTER_NUM
    && Distinct(ids) && Paired(Voltages(cs), ids, vs) && Ascending(vs)
    && (forall i: nat :: i in ids <==> IsCandidate(cs, rbmsNum, i))
  }

  /** Among the sorted candidates `[start, start + len)` is the first longest window. */
  ghost predicate BestWindow(cs: seq<Cluster>, rbmsNum: uint16, diff: uint8,
                             ids: seq<nat>, vs: seq<int>, start: nat, len: nat) {
    && SortedCandidates(cs, rbmsNum, ids, vs)
    && 1 <= len && WindowFits(vs, diff, start, start + len - 1)
    && (forall a: nat, b: nat :: WindowFits(vs, diff, a, b) ==>
          b - a + 1 < len || (b - a + 1 == len && start <= a))
  }

  lemma NoLargerSet(cs: seq<Cluster>, rbmsNum: uint16, diff: uint8,
                    ids: seq<nat>, vs: seq<int>, start: nat, len: nat, s: set<nat>)
    requires BestWindow(cs, rbmsNum, diff, ids, vs, start, len)
    requires Compatible(cs, rbmsNum, diff, s)
    ensures |s| <= len
    ensures |s| == len ==> forall i :: i in s ==> cs[ids[start]].voltage <= cs[i].voltage
  {
    if s != {} {
      forall p, q | 0 <= p < |ids| && 0 <= q < |ids| && ids[p] in s && ids[q] in s
        ensures vs[p] - vs[q] <= diff
      {
        assert vs[p] == cs[ids[p]].voltage && vs[q] == cs[ids[q]].voltage;
      }
      var a, b := CompatibleFitsWindow(ids, vs, diff, s);
      assert WindowFits(vs, diff, a, b);
      if |s| == len {
        forall i | i in s ensures cs[ids[start]].voltage <= cs[i].voltage {
          var p :| 0 <= p < |ids| && ids[p] == i;
          assert start <= a <= p;
          assert vs[start] <= vs[p];
        }
      }
    }
  }

  lemma WindowEntry(cs: seq<Cluster>, rbmsNum: uint16, diff: uint8,
                    ids: seq<nat>, vs: seq<int>, start: nat, len: nat, k: nat)
    requires BestWindow(cs, rbmsNum, diff, ids, vs, start, len) && k < len
    ensures start + len <= |ids| && IsCandidate(cs, rbmsNum, ids[start + k])
    ensures cs[ids[start + k]].voltage == vs[start + k] && vs[start] <= vs[start + k] <= vs[start] + diff
  {
    assert ids[start + k] in ids;
    assert k == 0 || vs[start] <= vs[start + k];
    assert k == len - 1 || vs[start + k] <= vs[start + len - 1];
  }

  lemma WindowIsAscending(cs: seq<Cluster>, rbmsNum: uint16, diff: uint8,
                          ids: seq<nat>, vs: seq<int>, start: nat, len: nat)
    requires BestWindow(cs, rbmsNum, diff, ids, vs, start, len)
    ensures start + len <= |ids| && InRange(cs, ids[start..start + len])
    ensures Distinct(ids[start..start + len]) && VoltageAscending(cs, ids[start..start + len])
  {
    var list := ids[start..start + len];
    forall a, b | 0 <= a < b < len
      ensures list[a] != list[b]
      ensures cs[list[a]].voltage < cs[list[b]].voltage
              || (cs[list[a]].voltage == cs[list[b]].voltage && list[a] < list[b])
    {
      assert list[a] == ids[start + a] && list[b] == ids[start + b];
      assert vs[start + a] <= vs[start + b];
    }
  }

  lemma WindowIsCompatible(cs: seq<Cluster>, rbmsNum: uint16, diff: uint8,
                           ids: seq<nat>, vs: seq<int>, start: nat, len: nat)
    requires BestWindow(cs, rbmsNum, diff, ids, vs, start, len)
    ensures start + len <= |ids| && Compatible(cs, rbmsNum, diff, Members(ids[start..start + len]))
  {
    var list := ids[start..start + len];
    forall i | i in list
      ensures IsCandidate(cs, rbmsNum, i) && vs[start] <= cs[i].voltage <= vs[start] + diff
    {
      var k :| 0 <= k < len && list[k] == i;
      WindowEntry(cs, rbmsNum, diff, ids, vs, start, len, k);
    }
  }

  lemma WindowIsLargestSet(cs: seq<Cluster>, rbmsNum: uint16, cfg: Config,
                           ids: seq<nat>, vs: seq<int>, start: nat, len: nat)
    requires BestWindow(cs, rbmsNum, cfg.allowVoltDiff, ids, vs, start, len)
    ensures len >= cfg.minOnline ==> SelectionSucceeds(cs, rbmsNum, cfg, ids[start..start + len])
    ensures len < cfg.minOnline ==> SelectionFails(cs, rbmsNum, cfg)
  {
    WindowIsAscending(cs, rbmsNum, cfg.allowVoltDiff, ids, vs, start, len);
    WindowIsCompatible(cs, rbmsNum, cfg.allowVoltDiff, ids, vs, start, len);
    forall s: set<nat> | Compatible(cs, rbmsNum, cfg.allowVoltDiff, s)
      ensures |s| <= len
      ensures |s| == len ==> forall i :: i in s ==> cs[ids[start]].voltage <= cs[i].voltage
    {
      NoLargerSet(cs, rbmsNum, cfg.allowVoltDiff, ids, vs, start, len, s);
    }
  }

  // ---------------------------------------------------------------- the master cluster

  ghost function SumOfVoltages(cs: seq<Cluster>, list: seq<nat>): real
    requires InRange(cs, list)
  {
    if list == [] then 0.0
    else SumOfVoltages(cs, list[..|list| - 1]) + cs[list[|list| - 1]].voltage as real
  }

  ghost function MeanVoltage(cs: seq<Cluster>, list: seq<nat>): real
    requires InRange(cs, list)
  {
    if list == [] then 0.0 else SumOfVoltages(cs, list) / |list| as real
  }

  function AbsReal(x: real): real { if x < 0.0 then -x else x }

  ghost function MeanDistance(cs: seq<Cluster>, list: seq<nat>, k: nat): real
    requires k < |list| && InRange(cs, list)
  {
    AbsReal(cs[list[k]].voltage as real - MeanVoltage(cs, list))
  }

  const MASTER_MAX_DIFF := 10000.0

  /** `idx` is the first list member closest to the mean, or -1 when all are 10000 V or more away. */
  ghost predicate IsMaster(cs: seq<Cluster>, list: seq<nat>, idx: int)
    requires InRange(cs, list)
  {
    if idx < 0 then
      idx == -1 && forall k :: 0 <= k < |list| ==> MeanDistance(cs, list, k) >= MASTER_MAX_DIFF
    else
      exists k :: 0 <= k < |list| && list[k] == idx && MeanDistance(cs, list, k) < MASTER_MAX_DIFF &&
        (forall j :: 0 <= j < k ==> MeanDistance(cs, list, k) < MeanDistance(cs, list, j)) &&
        (forall j :: k <= j < |list| ==> MeanDistance(cs, list, k) <= MeanDistance(cs, list, j))
  }

  method GetBmsMasterCluster(cs: array<Cluster>, list: seq<nat>) returns (idx: int)
    requires InRange(cs[..], list)
    ensures IsMaster(cs[..], list, idx)
  {
    var vAvg := 0.0;
    for i := 0 to |list|
      invariant vAvg == SumOfVoltages(cs[..], list[..i])
    {
      assert list[..i + 1][..i] == list[..i];
      vAvg := vAvg + cs[list[i]].voltage as real;
    }
    assert list[..|list|] == list;
    // An empty list leaves 0/0 in the C code; the loop below then has nothing to compare.
    vAvg := if |list| == 0 then 0.0 else vAvg / |list| as real;

    idx := -1;
    var minDiff := MASTER_MAX_DIFF;
    ghost var best := 0;
    for i := 0 to |list|
      invariant idx == -1 ==>
                  && minDiff == MASTER_MAX_DIFF
                  && forall j :: 0 <= j < i ==> MeanDistance(cs[..], list, j) >= MASTER_MAX_DIFF
      invariant idx != -1 ==>
                  0 <= best < i && list[best] == idx && minDiff == MeanDistance(cs[..], list, best) < MASTER_MAX_DIFF
      invariant idx != -1 ==>
                  forall j :: 0 <= j < best ==> MeanDistance(cs[..], list, best) < MeanDistance(cs[..], list, j)
      invariant forall j :: 0 <= j < i ==> minDiff <= MeanDistance(cs[..], list, j)
    {
      var diff := AbsReal(cs[list[i]].voltage as real - vAvg);
      assert diff == MeanDistance(cs[..], list, i);
      if diff < minDiff {
        minDiff := diff;
        idx := list[i];
        best := i;
      }
    }
  }

  /** `x` added up `n` times. */
  function Times(x: real, n: nat): real {
    if n == 0 then 0.0 else Times(x, n - 1) + x
  }

  lemma {:induction false} TimesIsProduct(x: real, n: nat)
    ensures Times(x, n) == x * n as real
  {
    if n != 0 {
      TimesIsProduct(x, n - 1);
      assert n as real == (n - 1) as real + 1.0;
      assert x * n as real == x * (n - 1) as real + x;
    }
  }

  lemma {:induction false} SumWithin(cs: seq<Cluster>, list: seq<nat>, lo: real, hi: real)
    requires InRange(cs, list)
    requires forall k :: 0 <= k < |list| ==> lo <= cs[list[k]].voltage as real <= hi
    ensures Times(lo, |list|) <= SumOfVoltages(cs, list) <= Times(hi, |list|)
  {
    if list != [] {
      SumWithin(cs, list[..|list| - 1], lo, hi);
    }
  }

  lemma ProductKeepsOrder(x: real, y: real, n: real)
    requires n > 0.0 && x * n <= y * n
    ensures x <= y
  {
    assert x > y ==> (x - y) * n > 0.0;
  }

  lemma QuotientWithin(lo: real, sum: real, hi: real, n: real)
    requires n > 0.0 && lo * n <= sum <= hi * n
    ensures lo <= sum / n <= hi
  {
    var q := sum / n;
    assert q * n == sum;
    ProductKeepsOrder(lo, q, n);
    ProductKeepsOrder(q, hi, n);
  }

  lemma SelectionIsNarrow(cs: seq<Cluster>, rbmsNum: uint16, cfg: Config, list: seq<nat>)
    requires SelectionSucceeds(cs, rbmsNum, cfg, list)
    ensures list != [] && InRange(cs, list)
    ensures forall k :: 0 <= k < |list| ==> cs[list[0]].voltage <= cs[list[k]].voltage <= cs[list[0]].voltage + 255
  {
    forall k | 0 <= k < |list|
      ensures cs[list[0]].voltage <= cs[list[k]].voltage <= cs[list[0]].voltage + 255
    {
      assert list[0] in Members(list) && list[k] in Members(list);
    }
  }

  lemma MeanIsNear(cs: seq<Cluster>, list: seq<nat>)
    requires list != [] && InRange(cs, list)
    requires forall k :: 0 <= k < |list| ==> cs[list[0]].voltage <= cs[list[k]].voltage <= cs[list[0]].voltage + 255
    ensures MeanDistance(cs, list, 0) <= 255.0
  {
    var v0 := cs[list[0]].voltage as real;
    SumWithin(cs, list, v0, v0 + 255.0);
    TimesIsProduct(v0, |list|);
    TimesIsProduct(v0 + 255.0, |list|);
    QuotientWithin(v0, SumOfVoltages(cs, list), v0 + 255.0, |list| as real);
  }

  /** On the snapshot the selection was made from, a master is always found. */
  lemma MasterExists(cs: seq<Cluster>, rbmsNum: uint16, cfg: Config, list: seq<nat>, idx: int)
    requires SelectionSucceeds(cs, rbmsNum, cfg, list)
    requires IsMaster(cs, list, idx)
    ensures idx in list
  {
    SelectionIsNarrow(cs, rbmsNum, cfg, list);
    MeanIsNear(cs, list);
  }

  /** The differences of `v` to the voltages of all list members, added up. */
  ghost function DifferenceSum(cs: seq<Cluster>, list: seq<nat>, v: int): int
    requires InRange(cs, list)
  {
    if list == [] then 0 else DifferenceSum(cs, list[..|list| - 1], v) + v - cs[list[|list| - 1]].voltage
  }

  /** How far a member is from the mean, as many times as there are members. */
  ghost function Deviation(cs: seq<Cluster>, list: seq<nat>, k: nat): int
    requires k < |list| && InRange(cs, list)
  {
    var d := DifferenceSum(cs, list, cs[list[k]].voltage);
    if d < 0 then -d else d
  }

  lemma {:induction false} DifferencesAddUp(cs: seq<Cluster>, list: seq<nat>, v: int)
    requires InRange(cs, list)
    ensures DifferenceSum(cs, list, v) as real == Times(v as real, |list|) - SumOfVoltages(cs, list)
  {
    if list != [] {
      DifferencesAddUp(cs, list[..|list| - 1], v);
    }
  }

  lemma ScaledOrder(x: real, y: real, n: real)
    requires n > 0.0
    ensures x < y <==> x * n < y * n
  {
    assert x < y ==> (y - x) * n > 0.0;
    assert y <= x ==> (x - y) * n >= 0.0;
  }

  lemma ScaledDifference(v: real, total: real, n: real, mean: real)
    requires n > 0.0 && mean == total / n
    ensures AbsReal(v - mean) * n == AbsReal(n * v - total)
  {
    var d := v - mean;
    assert mean * n == total;
    assert d * n == n * v - total;
    ScaledOrder(d, 0.0, n);
  }

  lemma AbsOfInt(sum: int, x: real)
    requires x == sum as real
    ensures AbsReal(x) == (if sum < 0 then -sum else sum) as real
  {
  }

  lemma ScaledDeviation(v: real, total: real, n: nat, mean: real, sum: int)
    requires n > 0 && mean == total / n as real && sum as real == Times(v, n) - total
    ensures AbsReal(v - mean) * n as real == (if sum < 0 then -sum else sum) as real
  {
    TimesIsProduct(v, n);
    ScaledDifference(v, total, n as real, mean);
    AbsOfInt(sum, n as real * v - total);
  }

  lemma DeviationIsScaled(cs: seq<Cluster>, list: seq<nat>, k: nat, distance: real, deviation: int)
    requires k < |list| && InRange(cs, list)
    requires distance == MeanDistance(cs, list, k) && deviation == Deviation(cs, list, k)
    ensures distance * |list| as real == deviation as real
  {
    var v := cs[list[k]].voltage;
    DifferencesAddUp(cs, list, v);
    ScaledDeviation(v as real, SumOfVoltages(cs, list), |list|, MeanVoltage(cs, list), DifferenceSum(cs, list, v));
  }

  /** Distances from the mean and deviations, member by member. */
  ghost predicate Measures(cs: seq<Cluster>, list: seq<nat>, distances: seq<real>, deviations: seq<int>)
    requires InRange(cs, list)
  {
    && |distances| == |deviations| == |list|
    && (forall k :: 0 <= k < |list| ==> distances[k] == MeanDistance(cs, list, k))
    && (forall k :: 0 <= k < |list| ==> deviations[k] == Deviation(cs, list, k))
  }

  lemma AllAreScaled(cs: seq<Cluster>, list: seq<nat>, distances: seq<real>, deviations: seq<int>)
    requires InRange(cs, list) && Measures(cs, list, distances, deviations)
    ensures forall k :: 0 <= k < |distances| ==> distances[k] * |list| as real == deviations[k] as real
  {
    forall k | 0 <= k < |distances| ensures distances[k] * |list| as real == deviations[k] as real {
      DeviationIsScaled(cs, list, k, distances[k], deviations[k]);
    }
  }

  lemma OrderIsScaled(distances: seq<real>, deviations: seq<int>, n: nat)
    requires |distances| == |deviations|
    requires forall k :: 0 <= k < |distances| ==> distances[k] * n as real == deviations[k] as real
    ensures n > 0 ==> forall j, k :: 0 <= j < |distances| && 0 <= k < |distances| ==>
              (distances[j] < distances[k] <==> deviations[j] < deviations[k])
    ensures n > 0 ==> forall k :: 0 <= k < |distances| ==> (distances[k] < 10000.0 <==> deviations[k] < 10000 * n)
  {
    if n > 0 {
      forall j, k | 0 <= j < |distances| && 0 <= k < |distances|
        ensures distances[j] < distances[k] <==> deviations[j] < deviations[k]
      {
        ScaledOrder(distances[j], distances[k], n as real);
      }
      forall k | 0 <= k < |distances| ensures distances[k] < 10000.0 <==> deviations[k] < 10000 * n {
        ScaledOrder(distances[k], 10000.0, n as real);
      }
    }
  }

  lemma DeviationsAgree(cs: seq<Cluster>, list: seq<nat>, distances: seq<real>, deviations: seq<int>)
    requires InRange(cs, list) && Measures(cs, list, distances, deviations)
    ensures forall j, k :: 0 <= j < |distances| && 0 <= k < |distances| ==>
              (distances[j] < distances[k] <==> deviations[j] < deviations[k])
    ensures forall k :: 0 <= k < |distances| ==> (distances[k] < 10000.0 <==> deviations[k] < 10000 * |list|)
  {
    AllAreScaled(cs, list, distances, deviations);
    OrderIsScaled(distances, deviations, |list|);
  }

  /** The place of the master in the list, in integers. */
  ghost predicate IsNearest(cs: seq<Cluster>, list: seq<nat>, k: int)
    requires InRange(cs, list)
  {
    && 0 <= k < |list|
    && (forall j :: 0 <= j < k ==> Deviation(cs, list, k) < Deviation(cs, list, j))
    && (forall j :: k <= j < |list| ==> Deviation(cs, list, k) <= Deviation(cs, list, j))
  }

  lemma NearestOf(cs: seq<Cluster>, list: seq<nat>, idx: int, distances: seq<real>, deviations: seq<int>)
    requires InRange(cs, list) && IsMaster(cs, list, idx) && Measures(cs, list, distances, deviations)
    requires forall j, k :: 0 <= j < |distances| && 0 <= k < |distances| ==>
               (distances[j] < distances[k] <==> deviations[j] < deviations[k])
    requires forall k :: 0 <= k < |distances| ==> (distances[k] < 10000.0 <==> deviations[k] < 10000 * |list|)
    ensures idx < 0 ==> idx == -1 && forall k :: 0 <= k < |list| ==> Deviation(cs, list, k) >= 10000 * |list|
    ensures idx >= 0 ==>
      exists k :: IsNearest(cs, list, k) && list[k] == idx && Deviation(cs, list, k) < 10000 * |list|
  {
    if idx < 0 {
      forall k | 0 <= k < |list| ensures Deviation(cs, list, k) >= 10000 * |list| {
        assert distances[k] == MeanDistance(cs, list, k) >= 10000.0;
      }
    } else {
      var k :| 0 <= k < |list| && list[k] == idx && MeanDistance(cs, list, k) < MASTER_MAX_DIFF
        && (forall j :: 0 <= j < k ==> MeanDistance(cs, list, k) < MeanDistance(cs, list, j))
        && (forall j :: k <= j < |list| ==> MeanDistance(cs, list, k) <= MeanDistance(cs, list, j));
      forall j | 0 <= j < k ensures deviations[k] < deviations[j] {
        assert distances[k] < distances[j];
      }
      forall j | k <= j < |list| ensures deviations[k] <= deviations[j] {
        assert !(distances[j] < distances[k]);
      }
      assert IsNearest(cs, list, k);
    }
  }

  /** The master in integers: the first member whose differences to all members add up to the least, in absolute
      value; -1 exactly when all members are 10000 V or more away from the mean. */
  lemma MasterInIntegers(cs: seq<Cluster>, list: seq<nat>, idx: int)
    requires InRange(cs, list) && IsMaster(cs, list, idx)
    ensures idx < 0 ==> idx == -1 && forall k :: 0 <= k < |list| ==> Deviation(cs, list, k) >= 10000 * |list|
    ensures idx >= 0 ==>
      exists k :: IsNearest(cs, list, k) && list[k] == idx && Deviation(cs, list, k) < 10000 * |list|
  {
    var distances := seq(|list|, k requires 0 <= k < |list| => MeanDistance(cs, list, k));
    var deviations := seq(|list|, k requires 0 <= k < |list| => Deviation(cs, list, k));
    DeviationsAgree(cs, list, distances, deviations);
    NearestOf(cs, list, idx, distances, deviations);
  }

  /** The promise of `IsMaster` leaves no choice. */
  lemma MasterIsUnique(cs: seq<Cluster>, list: seq<nat>, x: int, y: int)
    requires InRange(cs, list)
    requires IsMaster(cs, list, x) && IsMaster(cs, list, y)
    ensures x == y
  {
    if x >= 0 && y >= 0 {
      var k :| 0 <= k < |list| && list[k] == x &&
        (forall j :: 0 <= j < k ==> MeanDistance(cs, list, k) < MeanDistance(cs, list, j)) &&
        (forall j :: k <= j < |list| ==> MeanDistance(cs, list, k) <= MeanDistance(cs, list, j));
      var l :| 0 <= l < |list| && list[l] == y &&
        (forall j :: 0 <= j < l ==> MeanDistance(cs, list, l) < MeanDistance(cs, list, j)) &&
        (forall j :: l <= j < |list| ==> MeanDistance(cs, list, l) <= MeanDistance(cs, list, j));
      assert k == l;
    }
  }
}
