/** Closing contactors can wait for ever: when it does, and how a run gets there. */
module CentralStall {
  import opened MachineInts
  import opened ClusterSelection
  import opened CentralSpec
  import opened CentralRuns

  /** Nothing is eligible, yet a selected cluster is open. */
  ghost predicate Stalled(cfg: Config, c: Ctrl) {
    && Shaped(c) && c.state == GridOn && c.pending == NO_PENDING && 0 <= c.master < |c.clusters|
    && !AllSelectedOn(c.clusters)
    && forall i: nat :: !IsTarget(c.clusters, c.master, cfg.allowVoltDiff, i)
  }

  /** A stalled call changes nothing and sends nothing; and only a stalled call of GridOn with nothing
      pending does so. */
  lemma StallIsStutter(cfg: Config, s: Step)
    requires IsStep(cfg, s) && s.pre.state == GridOn && s.pre.pending == NO_PENDING
    ensures Stalled(cfg, s.pre) <==> s.post == s.pre && s.cmds == []
  {
  }

  ghost predicate StuttersWhenStalled(cfg: Config, s: Step) {
    Stalled(cfg, s.pre) ==> s.post == s.pre && s.cmds == []
  }

  lemma {:induction false} StallPersists(cfg: Config, run: seq<Step>, i: nat, j: nat)
    requires Linked(run) && forall k :: 0 <= k < |run| ==> StuttersWhenStalled(cfg, run[k])
    requires i <= j < |run| && Stalled(cfg, run[i].pre)
    requires forall n :: i < n <= j ==> run[n].pre.clusters == run[i].pre.clusters
    ensures run[j].pre == run[i].pre
    decreases j
  {
    if j > i {
      StallPersists(cfg, run, i, j - 1);
      assert StuttersWhenStalled(cfg, run[j - 1]);
      assert run[j].pre == run[j - 1].post.(clusters := run[j].pre.clusters);
    }
  }

  /** As long as the racks report the same, a stalled machine sends nothing and never moves. */
  lemma StallIsPermanent(cfg: Config, run: seq<Step>, i: nat, j: nat)
    requires IsRun(cfg, run) && i <= j < |run| && Stalled(cfg, run[i].pre)
    requires forall n :: i < n <= j ==> run[n].pre.clusters == run[i].pre.clusters
    ensures run[j].post == run[i].pre && run[j].cmds == []
  {
    RunIsLinked(cfg, run);
    forall k | 0 <= k < |run| ensures StuttersWhenStalled(cfg, run[k]) {
      assert IsStep(cfg, run[k]);
    }
    StallPersists(cfg, run, i, j);
    assert StuttersWhenStalled(cfg, run[j]);
  }

  /** Selection tolerates a difference equal to the limit, switching on does not: two healthy clusters
      exactly the limit apart can be selected together, and the second is never asked to close. */
  lemma LimitDifferenceStalls(cfg: Config, c: Ctrl, a: nat, b: nat)
    requires Shaped(c) && a < MAX_CLUSTER_NUM && b < MAX_CLUSTER_NUM && a != b
    requires c.state == GridOn && c.pending == NO_PENDING && c.master == a
    requires forall i :: 0 <= i < MAX_CLUSTER_NUM ==> (c.clusters[i].selected <==> i == a || i == b)
    requires !c.clusters[b].contactorOn && c.clusters[b].voltage == c.clusters[a].voltage + cfg.allowVoltDiff
    requires IsCandidate(c.clusters, MAX_CLUSTER_NUM, a) && IsCandidate(c.clusters, MAX_CLUSTER_NUM, b)
    ensures Compatible(c.clusters, MAX_CLUSTER_NUM, cfg.allowVoltDiff, {a, b})
    ensures Stalled(cfg, c)
  {
  }

  // ---------------------------------------------------------------- a run that stalls

  function Healthy(voltage: uint16): Cluster {
    Cluster(true, true, false, voltage, false, false)
  }

  const ABSENT := Cluster(false, false, false, 0, false, false)

  /** Two healthy clusters, the limit apart, and nothing else. */
  function TwoRacks(v: uint16, w: uint16): (cs: seq<Cluster>)
    ensures |cs| == MAX_CLUSTER_NUM && cs[0] == Healthy(v) && cs[1] == Healthy(w)
    ensures forall i :: 2 <= i < |cs| ==> cs[i] == ABSENT
  {
    seq(MAX_CLUSTER_NUM, i => if i == 0 then Healthy(v) else if i == 1 then Healthy(w) else ABSENT)
  }

  lemma PairIsSelected(cfg: Config, v: uint16, w: uint16)
    requires cfg.minOnline <= 2 && w == v + cfg.allowVoltDiff
    ensures SelectionSucceeds(TwoRacks(v, w), 2, cfg, [0, 1])
  {
    var cs := TwoRacks(v, w);
    assert Members([0, 1]) == {0, 1};
    forall s: set<nat> | Compatible(cs, 2, cfg.allowVoltDiff, s)
      ensures |s| <= 2 && forall i :: i in s ==> cs[0].voltage <= cs[i].voltage
    {
      PositionsBound(s, 0, 1);
    }
  }

  lemma LowerIsMaster(cs: seq<Cluster>)
    requires |cs| >= 2
    ensures MeanDistance(cs, [0, 1], 0) == MeanDistance(cs, [0, 1], 1)
    ensures MeanDistance(cs, [0, 1], 0) < MASTER_MAX_DIFF ==> IsMaster(cs, [0, 1], 0)
  {
    assert [0, 1][..1] == [0] && [0][..0] == [];
    assert SumOfVoltages(cs, [0]) == cs[0].voltage as real;
    assert SumOfVoltages(cs, [0, 1]) == cs[0].voltage as real + cs[1].voltage as real;
    assert [0, 1][0] == 0 && [0, 1][1] == 1;
  }

  /** The two clusters marked and, once the first has closed, its contactor seen. */
  function Marked(cs: seq<Cluster>, firstOn: bool): seq<Cluster>
    requires |cs| >= 2
  {
    Selected(cs, [0, 1])[0 := cs[0].(selected := true, contactorOn := firstOn)]
  }

  /** The states of the run, from switching the controller on to waiting for the second cluster. */
  function StallState(v: uint16, w: uint16, n: nat): Ctrl {
    var cs, none := TwoRacks(v, w), seq(MAX_CLUSTER_NUM, _ => 0);
    var chosen := none[1 := 1];
    match n
    case 0 => Ctrl(Init, cs, 0, -1, none, 0, NO_PENDING)
    case 1 => Ctrl(SelfCheck, cs, 0, -1, none, 0, NO_PENDING)
    case 2 => Ctrl(Standby, cs, 0, -1, none, 0, NO_PENDING)
    case 3 => Ctrl(Prepare, cs, 0, -1, chosen, 2, NO_PENDING)
    case 4 => Ctrl(MasterGridOn, Marked(cs, false), 0, 0, chosen, 2, NO_PENDING)
    case 5 => Ctrl(MasterGridOn, Marked(cs, true), 0, 0, chosen, 2, NO_PENDING)
    case _ => Ctrl(GridOn, Marked(cs, true), 0, 0, chosen, 2, NO_PENDING)
  }

  const AT_START := Input(0, 2, false)

  lemma FirstSteps(cfg: Config, v: uint16, w: uint16)
    ensures IsStep(cfg, Step(StallState(v, w, 0), AT_START, StallState(v, w, 1), []))
    ensures IsStep(cfg, Step(StallState(v, w, 1), AT_START, StallState(v, w, 2), []))
  {
  }

  lemma SelectingStep(cfg: Config, v: uint16, w: uint16)
    requires cfg.minOnline <= 2 && w == v + cfg.allowVoltDiff
    ensures IsStep(cfg, Step(StallState(v, w, 2), AT_START, StallState(v, w, 3), []))
  {
    PairIsSelected(cfg, v, w);
    assert StallState(v, w, 3).valid[..2] == [0, 1];
  }

  lemma MasterStep(cfg: Config, v: uint16, w: uint16)
    requires cfg.minOnline <= 2 && w == v + cfg.allowVoltDiff
    ensures IsStep(cfg, Step(StallState(v, w, 3), AT_START, StallState(v, w, 4), [SwitchOn(0)]))
  {
    var c := StallState(v, w, 3);
    var cs := Selected(c.clusters, [0, 1]);
    assert c.valid[..2] == [0, 1];
    MeanIsNear(cs, [0, 1]);
    LowerIsMaster(cs);
    assert cs == Marked(c.clusters, false);
  }

  lemma ClosedStep(cfg: Config, v: uint16, w: uint16)
    ensures Environment(StallState(v, w, 4), StallState(v, w, 5))
    ensures IsStep(cfg, Step(StallState(v, w, 5), AT_START, StallState(v, w, 6), []))
  {
  }

  function StallingRun(v: uint16, w: uint16): seq<Step> {
    [Step(StallState(v, w, 0), AT_START, StallState(v, w, 1), []),
     Step(StallState(v, w, 1), AT_START, StallState(v, w, 2), []),
     Step(StallState(v, w, 2), AT_START, StallState(v, w, 3), []),
     Step(StallState(v, w, 3), AT_START, StallState(v, w, 4), [SwitchOn(0)]),
     Step(StallState(v, w, 5), AT_START, StallState(v, w, 6), [])]
  }

  lemma SameIsEnvironment(c: Ctrl)
    ensures Environment(c, c)
  {
  }

  lemma StallingRunIsRun(cfg: Config, v: uint16, w: uint16)
    requires cfg.minOnline <= 2 && w == v + cfg.allowVoltDiff
    ensures IsRun(cfg, StallingRun(v, w))
  {
    var run := StallingRun(v, w);
    FirstSteps(cfg, v, w);
    SelectingStep(cfg, v, w);
    MasterStep(cfg, v, w);
    ClosedStep(cfg, v, w);
    SameIsEnvironment(run[0].post);
    SameIsEnvironment(run[1].post);
    SameIsEnvironment(run[2].post);
  }

  /** Whatever the limit, from switching on two healthy clusters exactly that far apart: the selection takes both, the
      lower one closes, and the machine then waits for the other without ever asking it to close. */
  lemma LimitDifferenceHappens(cfg: Config, v: uint16, w: uint16)
    requires cfg.minOnline <= 2 && w == v + cfg.allowVoltDiff
    ensures var run := StallingRun(v, w);
      && IsRun(cfg, run)
      && SelectsAfresh(cfg, run[2]) && run[2].post.valid[..run[2].post.validCnt] == [0, 1]
      && run[3].cmds == [SwitchOn(0)] && run[4].post.clusters[0].contactorOn
      && Stalled(cfg, run[4].post)
  {
    StallingRunIsRun(cfg, v, w);
    PairIsSelected(cfg, v, w);
    assert StallState(v, w, 3).valid[..2] == [0, 1];
    assert !AllSelectedOn(StallState(v, w, 6).clusters) by {
      assert StallState(v, w, 6).clusters[1].selected;
    }
  }
}
