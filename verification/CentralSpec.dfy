/** The central-mode grid-on state machine as a transition relation on values, and what every transition keeps. */
module CentralSpec {
  import opened MachineInts
  import opened ClusterSelection

  datatype StackState =
    | Init | SelfCheck | Standby
    | Prepare | MasterGridOn | GridOn
    | Run | PowerOff | Fault

  /** Requests queued for the racks. */
  datatype Command = SwitchOn(id: nat) | SwitchOff(id: nat)

  const NO_PENDING := 0xFF

  /** The file-scope variables of the controller. */
  datatype Ctrl = Ctrl(state: StackState, clusters: seq<Cluster>, timer: uint32, master: int,
                       valid: seq<nat>, validCnt: uint8, pending: uint8)

  /** What one call reads besides the clusters: the tick, the configured rack count, and whether the
      bank itself reports a level-1 fault. */
  datatype Input = Input(now: uint32, rbmsNum: uint16, bankLevel1: bool)

  ghost predicate Shaped(c: Ctrl) {
    |c.clusters| == MAX_CLUSTER_NUM && |c.valid| == MAX_CLUSTER_NUM
  }

  // ---------------------------------------------------------------- observations

  function CountSelected(cs: seq<Cluster>): nat {
    if cs == [] then 0
    else CountSelected(cs[..|cs| - 1]) + if cs[|cs| - 1].selected then 1 else 0
  }

  function CountSelectedOn(cs: seq<Cluster>): nat {
    if cs == [] then 0
    else CountSelectedOn(cs[..|cs| - 1]) + if cs[|cs| - 1].selected && cs[|cs| - 1].contactorOn then 1 else 0
  }

  predicate AllOpen(cs: seq<Cluster>) {
    forall i :: 0 <= i < |cs| ==> !cs[i].contactorOn
  }

  predicate AllSelectedOn(cs: seq<Cluster>) {
    forall i :: 0 <= i < |cs| ==> cs[i].selected ==> cs[i].contactorOn
  }

  predicate SelfCheckPasses(cs: seq<Cluster>, inp: Input) {
    !inp.bankLevel1 && forall i :: 0 <= i < |cs| && i < inp.rbmsNum ==> cs[i].online && !cs[i].fault
  }

  /** `i` may be switched on next: selected, not the master, healthy, open, strictly near the master. */
  predicate IsTarget(cs: seq<Cluster>, master: nat, diff: uint8, i: nat)
    requires master < |cs|
  {
    i < |cs| && i < MAX_CLUSTER_NUM && cs[i].selected && i != master && !cs[i].fault && !cs[i].contactorOn &&
    cs[i].voltage - cs[master].voltage < diff && cs[master].voltage - cs[i].voltage < diff
  }

  /** The running voltage check trips, as coded (the minimum starts at 10000). */
  ghost predicate SpreadTrips(cs: seq<Cluster>, diff: uint8) {
    exists i :: 0 <= i < |cs| && cs[i].selected && cs[i].contactorOn &&
      (cs[i].voltage > 10000 + diff ||
       exists j :: 0 <= j < |cs| && cs[j].selected && cs[j].contactorOn && cs[i].voltage - cs[j].voltage > diff)
  }

  /** The commands of `ids`, in ascending order of id. */
  function OffCommands(cs: seq<Cluster>, which: Cluster -> bool): seq<Command> {
    if cs == [] then []
    else OffCommands(cs[..|cs| - 1], which) + if which(cs[|cs| - 1]) then [SwitchOff(|cs| - 1)] else []
  }

  function SelectedFaulty(): Cluster -> bool { (c: Cluster) => c.selected && c.fault }
  function Stray(): Cluster -> bool { (c: Cluster) => !c.selected && c.contactorOn }
  function Closed(): Cluster -> bool { (c: Cluster) => c.contactorOn }
  function Any(): Cluster -> bool { (c: Cluster) => true }

  // ---------------------------------------------------------------- one transition

  function Selected(cs: seq<Cluster>, list: seq<nat>): seq<Cluster> {
    seq(|cs|, i requires 0 <= i < |cs| => cs[i].(selected := i in list))
  }

  ghost predicate StandbyNext(cfg: Config, c: Ctrl, inp: Input, d: Ctrl)
    requires Shaped(c)
  {
    || (&& d.state == Prepare && |d.valid| == MAX_CLUSTER_NUM && d.validCnt <= MAX_CLUSTER_NUM
        && SelectionSucceeds(c.clusters, inp.rbmsNum, cfg, d.valid[..d.validCnt])
        && d.valid[d.validCnt..] == c.valid[d.validCnt..]
        && d == c.(state := Prepare, valid := d.valid, validCnt := d.validCnt))
    || (d == c.(state := SelfCheck) && SelectionFails(c.clusters, inp.rbmsNum, cfg))
  }

  ghost predicate PrepareNext(c: Ctrl, inp: Input, d: Ctrl, cmds: seq<Command>)
    requires Shaped(c)
  {
    && c.validCnt <= MAX_CLUSTER_NUM
    && var list := c.valid[..c.validCnt];
    && InRange(c.clusters, list)
    && IsMaster(Selected(c.clusters, list), list, d.master)
    && if d.master < 0 then
         d == c.(clusters := Selected(c.clusters, list), master := d.master, state := Init) && cmds == []
       else
         d == c.(clusters := Selected(c.clusters, list), master := d.master, timer := inp.now,
                 pending := NO_PENDING, state := MasterGridOn) && cmds == [SwitchOn(d.master)]
  }

  function MasterGridOnStep(cfg: Config, c: Ctrl, now: uint32): Ctrl
    requires 0 <= c.master < |c.clusters|
  {
    var m := c.clusters[c.master];
    if !m.online || m.fault then c.(state := PowerOff)
    else if m.contactorOn then c.(timer := now, state := GridOn)
    else if Elapsed(now, c.timer) > cfg.powerOnTimeoutMs then c.(state := PowerOff)
    else c
  }

  /** GridOn while a cluster is being switched on. */
  function PendingStep(cfg: Config, c: Ctrl, now: uint32): Ctrl
    requires c.pending < |c.clusters|
  {
    var p := c.clusters[c.pending];
    if p.contactorOn then c.(pending := NO_PENDING)
    else if Elapsed(now, c.timer) > cfg.powerOnTimeoutMs then
      var c1 := if p.selected
                then c.(validCnt := (c.validCnt - 1) % U8_SPAN,
                        clusters := c.clusters[c.pending := p.(selected := false)])
                else c;
      if c1.validCnt < cfg.minOnline then c1.(state := PowerOff) else c1.(pending := NO_PENDING)
    else c
  }

  /** GridOn with nothing pending: the lowest eligible cluster is switched on, or everything is done. */
  ghost predicate IdleNext(cfg: Config, c: Ctrl, now: uint32, d: Ctrl, cmds: seq<Command>)
    requires Shaped(c) && 0 <= c.master < |c.clusters|
  {
    || (exists t: nat ::
          && IsTarget(c.clusters, c.master, cfg.allowVoltDiff, t)
          && (forall i: nat :: i < t ==> !IsTarget(c.clusters, c.master, cfg.allowVoltDiff, i))
          && d == c.(pending := t, timer := now) && cmds == [SwitchOn(t)])
    || (cmds == []
        && (forall i: nat :: !IsTarget(c.clusters, c.master, cfg.allowVoltDiff, i))
        && d == if AllSelectedOn(c.clusters) then c.(state := Run) else c)
  }

  ghost predicate RunNext(cfg: Config, c: Ctrl, d: Ctrl, cmds: seq<Command>)
  {
    if CountSelectedOn(c.clusters) < cfg.minOnline then
      d == c.(state := PowerOff) && cmds == OffCommands(c.clusters, SelectedFaulty())
    else
      && d == (if SpreadTrips(c.clusters, cfg.allowVoltDiff) then c.(state := PowerOff) else c)
      && cmds == OffCommands(c.clusters, SelectedFaulty()) + OffCommands(c.clusters, Stray())
  }

  function PowerOffStep(cfg: Config, c: Ctrl, now: uint32): Ctrl {
    if AllOpen(c.clusters) then c.(state := Standby)
    else
      var c1 := c.(timer := now);
      if Elapsed(now, c1.timer) > cfg.powerOffTimeoutMs then c1.(state := Fault) else c1
  }

  function FaultStep(c: Ctrl): Ctrl {
    if AllOpen(c.clusters) then c.(state := Standby) else c
  }

  ghost predicate Next(cfg: Config, c: Ctrl, inp: Input, d: Ctrl, cmds: seq<Command>)
    requires Shaped(c)
  {
    match c.state
    case Init => d == c.(state := SelfCheck) && cmds == []
    case SelfCheck =>
      d == c.(state := if SelfCheckPasses(c.clusters, inp) then Standby else Fault) && cmds == []
    case Standby => StandbyNext(cfg, c, inp, d) && cmds == []
    case Prepare => PrepareNext(c, inp, d, cmds)
    case MasterGridOn =>
      0 <= c.master < |c.clusters| && d == MasterGridOnStep(cfg, c, inp.now) && cmds == []
    case GridOn =>
      && 0 <= c.master < |c.clusters|
      && if c.pending != NO_PENDING then
           c.pending < |c.clusters| && d == PendingStep(cfg, c, inp.now) && cmds == []
         else IdleNext(cfg, c, inp.now, d, cmds)
    case Run => RunNext(cfg, c, d, cmds)
    case PowerOff => d == PowerOffStep(cfg, c, inp.now) && cmds == OffCommands(c.clusters, Closed())
    case Fault => d == FaultStep(c) && cmds == OffCommands(c.clusters, Any())
  }

  // ---------------------------------------------------------------- the invariant

  /** Holds before and after every call, whatever the racks report in between. */
  ghost predicate Inv(cfg: Config, c: Ctrl) {
    && Shaped(c)
    && (c.state == Prepare ==>
          && 1 <= c.validCnt <= MAX_CLUSTER_NUM && cfg.minOnline <= c.validCnt
          && InRange(c.clusters, c.valid[..c.validCnt]) && Distinct(c.valid[..c.validCnt]))
    && (c.state in {MasterGridOn, GridOn, Run} ==>
          && c.validCnt == CountSelected(c.clusters) && cfg.minOnline <= c.validCnt
          && 0 <= c.master < MAX_CLUSTER_NUM && c.clusters[c.master].selected)
    && (c.state == MasterGridOn ==> c.pending == NO_PENDING)
    && (c.state == GridOn && c.pending != NO_PENDING ==>
          c.pending < MAX_CLUSTER_NUM && c.pending != c.master && c.clusters[c.pending].selected)
  }

  /** Between two calls the racks may report anything; only `selected` is the controller's own. */
  ghost predicate Environment(c: Ctrl, d: Ctrl) {
    && d == c.(clusters := d.clusters) && |d.clusters| == |c.clusters|
    && forall i :: 0 <= i < |c.clusters| ==> d.clusters[i].selected == c.clusters[i].selected
  }

  lemma {:induction false} CountDependsOnFlags(cs: seq<Cluster>, ds: seq<Cluster>)
    requires |cs| == |ds| && forall i :: 0 <= i < |cs| ==> cs[i].selected == ds[i].selected
    ensures CountSelected(cs) == CountSelected(ds)
  {
    if cs != [] {
      CountDependsOnFlags(cs[..|cs| - 1], ds[..|ds| - 1]);
    }
  }

  lemma EnvironmentKeepsInv(cfg: Config, c: Ctrl, d: Ctrl)
    requires Inv(cfg, c) && Environment(c, d)
    ensures Inv(cfg, d)
  {
    CountDependsOnFlags(c.clusters, d.clusters);
  }

  lemma {:induction false} CountAfterDeselect(cs: seq<Cluster>, p: nat, x: Cluster)
    requires p < |cs| && cs[p].selected && !x.selected
    ensures CountSelected(cs[p := x]) == CountSelected(cs) - 1
  {
    var n := |cs| - 1;
    if p == n {
      assert cs[p := x][..n] == cs[..n];
    } else {
      assert cs[p := x][..n] == cs[..n][p := x];
      CountAfterDeselect(cs[..n], p, x);
    }
  }

  lemma {:induction false} CountAtLeastOne(cs: seq<Cluster>, p: nat)
    requires p < |cs| && cs[p].selected
    ensures CountSelected(cs) >= 1
  {
    if p < |cs| - 1 {
      CountAtLeastOne(cs[..|cs| - 1], p);
    }
  }

  /** Marking a duplicate-free list selects exactly as many clusters as it is long. */
  lemma {:induction false} CountOfMarked(cs: seq<Cluster>, marked: set<nat>)
    requires forall i :: i in marked ==> i < |cs|
    requires forall i :: 0 <= i < |cs| ==> (cs[i].selected <==> i in marked)
    ensures CountSelected(cs) == |marked|
  {
    if cs == [] {
      assert marked == {};
    } else {
      var n := |cs| - 1;
      CountOfMarked(cs[..n], marked - {n});
    }
  }

  lemma PrepareKeepsInv(cfg: Config, c: Ctrl, inp: Input, d: Ctrl, cmds: seq<Command>)
    requires Inv(cfg, c) && c.state == Prepare && PrepareNext(c, inp, d, cmds)
    ensures Inv(cfg, d)
  {
    var list := c.valid[..c.validCnt];
    if d.master >= 0 {
      SizeOfDistinct(list);
      forall i | i in Members(list) ensures i < |d.clusters| {
        var k :| 0 <= k < |list| && list[k] == i;
      }
      CountOfMarked(d.clusters, Members(list));
    }
  }

  lemma PendingKeepsInv(cfg: Config, c: Ctrl, now: uint32)
    requires Inv(cfg, c) && c.state == GridOn && c.pending != NO_PENDING
    ensures Inv(cfg, PendingStep(cfg, c, now))
    // `g_valid_cnt--` never wraps: the master stays selected beside the dropped cluster
    ensures 1 <= PendingStep(cfg, c, now).validCnt <= c.validCnt
  {
    var x := c.clusters[c.pending].(selected := false);
    CountAfterDeselect(c.clusters, c.pending, x);
    CountAtLeastOne(c.clusters[c.pending := x], c.master);
  }

  lemma StandbyKeepsInv(cfg: Config, c: Ctrl, inp: Input, d: Ctrl)
    requires Shaped(c) && c.state == Standby && StandbyNext(cfg, c, inp, d)
    ensures Inv(cfg, d)
  {
  }

  lemma MasterGridOnKeepsInv(cfg: Config, c: Ctrl, now: uint32)
    requires Inv(cfg, c) && c.state == MasterGridOn
    ensures Inv(cfg, MasterGridOnStep(cfg, c, now))
  {
  }

  lemma IdleKeepsInv(cfg: Config, c: Ctrl, now: uint32, d: Ctrl, cmds: seq<Command>)
    requires Inv(cfg, c) && c.state == GridOn && IdleNext(cfg, c, now, d, cmds)
    ensures Inv(cfg, d)
  {
  }

  lemma GridOnKeepsInv(cfg: Config, c: Ctrl, inp: Input, d: Ctrl, cmds: seq<Command>)
    requires Inv(cfg, c) && c.state == GridOn && Next(cfg, c, inp, d, cmds)
    ensures Inv(cfg, d)
  {
    if c.pending != NO_PENDING {
      PendingKeepsInv(cfg, c, inp.now);
    } else {
      IdleKeepsInv(cfg, c, inp.now, d, cmds);
    }
  }

  lemma RunningKeepsInv(cfg: Config, c: Ctrl, d: Ctrl, cmds: seq<Command>)
    requires Inv(cfg, c) && c.state == Run && RunNext(cfg, c, d, cmds)
    ensures Inv(cfg, d)
  {
  }

  /** In the states without contactors to close the invariant asks for the shape only. */
  lemma RestKeepsInv(cfg: Config, c: Ctrl, inp: Input, d: Ctrl, cmds: seq<Command>)
    requires Shaped(c) && c.state in {Init, SelfCheck, PowerOff, Fault} && Next(cfg, c, inp, d, cmds)
    ensures Inv(cfg, d)
  {
  }

  lemma NextKeepsInv(cfg: Config, c: Ctrl, inp: Input, d: Ctrl, cmds: seq<Command>)
    requires Inv(cfg, c) && Next(cfg, c, inp, d, cmds)
    ensures Inv(cfg, d)
  {
    match c.state
    case Standby => StandbyKeepsInv(cfg, c, inp, d);
    case Prepare => PrepareKeepsInv(cfg, c, inp, d, cmds);
    case MasterGridOn => MasterGridOnKeepsInv(cfg, c, inp.now);
    case GridOn => GridOnKeepsInv(cfg, c, inp, d, cmds);
    case Run => RunningKeepsInv(cfg, c, d, cmds);
    case _ => RestKeepsInv(cfg, c, inp, d, cmds);
  }
}
