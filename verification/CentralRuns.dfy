/** Safety of the central machine over whole runs, under an arbitrary environment. */
module CentralRuns {
  import opened MachineInts
  import opened ClusterSelection
  import opened CentralSpec

  /** One call of the controller: what it found, what it read, what it left, what it sent. */
  datatype Step = Step(pre: Ctrl, inp: Input, post: Ctrl, cmds: seq<Command>)

  ghost predicate IsStep(cfg: Config, s: Step) {
    Shaped(s.pre) && Next(cfg, s.pre, s.inp, s.post, s.cmds)
  }

  /** Calls one after the other, with the racks changing arbitrarily in between. */
  ghost predicate IsRun(cfg: Config, run: seq<Step>) {
    && (run != [] ==> run[0].pre.state == Init)
    && (forall k :: 0 <= k < |run| ==> IsStep(cfg, run[k]))
    && (forall k {:trigger run[k].post} :: 0 <= k < |run| - 1 ==> Environment(run[k].post, run[k + 1].pre))
  }

  ghost predicate Switches(s: Step, t: nat) {
    SwitchOn(t) in s.cmds
  }

  ghost predicate SwitchesSome(s: Step) {
    exists t: nat :: Switches(s, t)
  }

  lemma StepKeepsInv(cfg: Config, s: Step)
    requires IsStep(cfg, s) && Inv(cfg, s.pre)
    ensures Inv(cfg, s.post)
  {
    NextKeepsInv(cfg, s.pre, s.inp, s.post, s.cmds);
  }

  lemma NextStepKeepsInv(cfg: Config, s: Step, next: Step)
    requires Inv(cfg, s.post) && Environment(s.post, next.pre) && IsStep(cfg, next)
    ensures Inv(cfg, next.pre) && Inv(cfg, next.post)
  {
    EnvironmentKeepsInv(cfg, s.post, next.pre);
    StepKeepsInv(cfg, next);
  }

  lemma {:induction false} RunKeepsInv(cfg: Config, run: seq<Step>, k: nat)
    requires IsRun(cfg, run) && k < |run|
    ensures Inv(cfg, run[k].pre) && Inv(cfg, run[k].post)
  {
    assert IsStep(cfg, run[k]);
    if k > 0 {
      RunKeepsInv(cfg, run, k - 1);
      assert Environment(run[k - 1].post, run[k].pre);
      NextStepKeepsInv(cfg, run[k - 1], run[k]);
    } else {
      StepKeepsInv(cfg, run[k]);
    }
  }

  lemma RunExtends(cfg: Config, run: seq<Step>, s: Step)
    requires IsRun(cfg, run) && IsStep(cfg, s)
    requires if run == [] then s.pre.state == Init else Environment(run[|run| - 1].post, s.pre)
    ensures IsRun(cfg, run + [s])
  {
    var longer := run + [s];
    forall k | 0 <= k < |longer| ensures IsStep(cfg, longer[k]) {
      assert k < |run| ==> longer[k] == run[k];
    }
    forall k {:trigger longer[k].post} | 0 <= k < |longer| - 1
      ensures Environment(longer[k].post, longer[k + 1].pre)
    {
      assert longer[k] == run[k];
      assert k + 1 < |run| ==> longer[k + 1] == run[k + 1];
    }
  }

  lemma {:induction false} OffCommandsOnlySwitchOff(cs: seq<Cluster>, which: Cluster -> bool, t: nat)
    ensures SwitchOn(t) !in OffCommands(cs, which)
  {
    if cs != [] {
      OffCommandsOnlySwitchOff(cs[..|cs| - 1], which, t);
    }
  }

  /** The only switch-on of a call, and the circumstances in which it is sent. */
  lemma SwitchOnIsGuarded(cfg: Config, s: Step, t: nat)
    requires IsStep(cfg, s) && Inv(cfg, s.pre) && Switches(s, t)
    ensures s.cmds == [SwitchOn(t)] && t < MAX_CLUSTER_NUM && s.post.clusters[t].selected
    ensures s.post.timer == s.inp.now
    ensures
      || (s.pre.state == Prepare && s.post.state == MasterGridOn && t == s.post.master
          && t in s.pre.valid[..s.pre.validCnt])
      || (&& s.pre.state == GridOn && s.post.state == GridOn && s.pre.pending == 0xFF && s.post.pending == t
          && 0 <= s.pre.master < 20 && t != s.pre.master
          && var x, m := s.pre.clusters[t], s.pre.clusters[s.pre.master];
          && x.selected && !x.fault && !x.contactorOn
          && x.voltage - m.voltage < cfg.allowVoltDiff && m.voltage - x.voltage < cfg.allowVoltDiff)
  {
    forall which: Cluster -> bool ensures SwitchOn(t) !in OffCommands(s.pre.clusters, which) {
      OffCommandsOnlySwitchOff(s.pre.clusters, which, t);
    }
    NextKeepsInv(cfg, s.pre, s.inp, s.post, s.cmds);
  }

  // ---------------------------------------------------------------- entering Run

  lemma {:induction false} AllSelectedOnCount(cs: seq<Cluster>)
    requires AllSelectedOn(cs)
    ensures CountSelectedOn(cs) == CountSelected(cs)
  {
    if cs != [] {
      assert AllSelectedOn(cs[..|cs| - 1]);
      AllSelectedOnCount(cs[..|cs| - 1]);
    }
  }

  /** Every entry to Run has observed at least the minimum number of selected contactors closed,
      and no selected one open. */
  lemma EntryToRun(cfg: Config, run: seq<Step>, k: nat)
    requires IsRun(cfg, run) && k < |run|
    requires run[k].pre.state != Run && run[k].post.state == Run
    ensures run[k].pre.state == GridOn && AllSelectedOn(run[k].pre.clusters)
    ensures cfg.minOnline <= CountSelectedOn(run[k].pre.clusters) == run[k].post.validCnt
    ensures run[k].pre.clusters[run[k].pre.master].contactorOn
  {
    RunKeepsInv(cfg, run, k);
    assert IsStep(cfg, run[k]);
    AllSelectedOnCount(run[k].pre.clusters);
  }

  // ---------------------------------------------------------------- no restart before everything is open

  /** Calls follow on each other: the environment touches the clusters only. */
  ghost predicate Linked(run: seq<Step>) {
    forall k {:trigger run[k].post} :: 0 <= k < |run| - 1 ==>
      run[k + 1].pre == run[k].post.(clusters := run[k + 1].pre.clusters)
  }

  ghost predicate SeesAllOpen(s: Step) {
    s.pre.state == PowerOff && AllOpen(s.pre.clusters)
  }

  /** A Standby call whose selection succeeded. */
  ghost predicate SelectsAfresh(cfg: Config, s: Step) {
    && s.pre.state == Standby && s.post.state == Prepare
    && s.post.validCnt <= |s.post.valid|
    && SelectionSucceeds(s.pre.clusters, s.inp.rbmsNum, cfg, s.post.valid[..s.post.validCnt])
  }

  /** The part of a call that matters for the way back from PowerOff. */
  ghost predicate WayBack(cfg: Config, s: Step) {
    && (s.pre.state == PowerOff ==> s.post.state == PowerOff || (s.post.state == Standby && SeesAllOpen(s)))
    && (s.pre.state in {Standby, SelfCheck, Fault} ==>
          s.post.state in {Standby, SelfCheck, Fault} || SelectsAfresh(cfg, s))
  }

  lemma RunIsLinked(cfg: Config, run: seq<Step>)
    requires IsRun(cfg, run)
    ensures Linked(run)
  {
    forall k {:trigger run[k].post} | 0 <= k < |run| - 1
      ensures run[k + 1].pre == run[k].post.(clusters := run[k + 1].pre.clusters)
    {
      assert Environment(run[k].post, run[k + 1].pre);
    }
  }

  lemma StepHasWayBack(cfg: Config, s: Step)
    requires IsStep(cfg, s)
    ensures WayBack(cfg, s)
  {
  }

  lemma RunHasWayBack(cfg: Config, run: seq<Step>)
    requires IsRun(cfg, run)
    ensures forall k :: 0 <= k < |run| ==> WayBack(cfg, run[k])
  {
    forall k | 0 <= k < |run| ensures WayBack(cfg, run[k]) {
      assert IsStep(cfg, run[k]);
      StepHasWayBack(cfg, run[k]);
    }
  }

  datatype Phase = StillClosed | Opened(k: nat) | Reselected(k: nat, m: nat)

  /** How far the machine has got back towards a switch-on before step `n`. */
  lemma {:induction false} PhaseAt(cfg: Config, run: seq<Step>, i: nat, n: nat) returns (phase: Phase)
    requires Linked(run) && forall k :: 0 <= k < |run| ==> WayBack(cfg, run[k])
    requires i < n < |run| && run[i].post.state == PowerOff
    ensures match phase
      case StillClosed => run[n].pre.state == PowerOff
      case Opened(k) => i < k < n && SeesAllOpen(run[k]) && run[n].pre.state in {Standby, SelfCheck, Fault}
      case Reselected(k, m) => i < k < m < n && SeesAllOpen(run[k]) && SelectsAfresh(cfg, run[m])
  {
    var s := run[n - 1];
    assert run[n].pre == s.post.(clusters := run[n].pre.clusters);
    if n == i + 1 {
      phase := StillClosed;
    } else {
      phase := PhaseAt(cfg, run, i, n - 1);
      assert WayBack(cfg, s);
      match phase {
        case StillClosed =>
          if s.post.state == Standby { phase := Opened(n - 1); }
        case Opened(k) =>
          if s.post.state == Prepare { phase := Reselected(k, n - 1); }
        case Reselected(_, _) =>
      }
    }
  }

  lemma SwitchOnStates(cfg: Config, run: seq<Step>, j: nat, t: nat)
    requires IsRun(cfg, run) && j < |run| && Switches(run[j], t)
    ensures run[j].pre.state in {Prepare, GridOn}
    ensures run[j].pre.state == GridOn ==> run[j].pre.pending == NO_PENDING
  {
    RunKeepsInv(cfg, run, j);
    assert IsStep(cfg, run[j]);
    SwitchOnIsGuarded(cfg, run[j], t);
  }

  /** After a call has given up for PowerOff, nothing is switched on again until a later call has seen
      every contactor open and, after that, a fresh selection has succeeded. */
  lemma NoRestartBeforeAllOpen(cfg: Config, run: seq<Step>, i: nat, j: nat) returns (k: nat, m: nat)
    requires IsRun(cfg, run) && i < j < |run|
    requires run[i].post.state == PowerOff && SwitchesSome(run[j])
    ensures i < k < m < j
    ensures SeesAllOpen(run[k]) && SelectsAfresh(cfg, run[m])
  {
    var t: nat :| Switches(run[j], t);
    SwitchOnStates(cfg, run, j, t);
    RunIsLinked(cfg, run);
    RunHasWayBack(cfg, run);
    var phase := PhaseAt(cfg, run, i, j);
    k, m := phase.k, phase.m;
  }

  /** The timeout of PowerOff is never taken: a call that finds a closed contactor restarts the timer it
      compares with, so the machine stays in PowerOff until every contactor is open. */
  lemma PowerOffNeverTimesOut(cfg: Config, s: Step)
    requires IsStep(cfg, s) && s.pre.state == PowerOff
    ensures s.post.state == if AllOpen(s.pre.clusters) then Standby else PowerOff
  {
    assert Elapsed(s.inp.now, s.inp.now) == 0;
  }

  // ---------------------------------------------------------------- one cluster at a time

  /** The machine, with master `m`, waits for cluster `t`, asked to close at tick `since`. */
  ghost predicate Waiting(c: Ctrl, t: nat, since: uint32, m: int) {
    && c.timer == since && c.master == m
    && ((c.state == MasterGridOn && m == t && c.pending == NO_PENDING)
        || (c.state == GridOn && c.pending == t && t != m && t != NO_PENDING))
  }

  predicate SeenClosed(s: Step, t: nat) {
    t < |s.pre.clusters| && s.pre.clusters[t].contactorOn
  }

  /** `t` took too long and was dropped from the selection. */
  predicate Dropped(cfg: Config, s: Step, t: nat, since: uint32) {
    t < |s.post.clusters| && Elapsed(s.inp.now, since) > cfg.powerOnTimeoutMs && !s.post.clusters[t].selected
  }

  /** What ends the wait: `t` was seen closed, or, unless it is the master, dropped. */
  predicate Settles(cfg: Config, s: Step, t: nat, since: uint32, m: int) {
    SeenClosed(s, t) || (t != m && Dropped(cfg, s, t, since))
  }

  predicate Closing(c: Ctrl) {
    c.state in {MasterGridOn, GridOn}
  }

  /** The part of a call that matters for waiting on `t`. */
  ghost predicate WaitsFor(cfg: Config, s: Step, t: nat, since: uint32, m: int) {
    && (Waiting(s.pre, t, since, m) ==>
          Waiting(s.post, t, since, m) || Settles(cfg, s, t, since, m) || !Closing(s.post))
    && (!Closing(s.pre) && Closing(s.post) ==> SwitchesSome(s))
  }

  lemma ClosingStartsWithSwitchOn(cfg: Config, s: Step)
    requires IsStep(cfg, s) && !Closing(s.pre)
    ensures Closing(s.post) ==> SwitchesSome(s)
  {
    if Closing(s.post) {
      assert Switches(s, s.post.master);
    }
  }

  lemma MasterStepWaits(cfg: Config, s: Step, t: nat, since: uint32, m: int)
    requires IsStep(cfg, s) && s.pre.state == MasterGridOn && Waiting(s.pre, t, since, m)
    ensures Waiting(s.post, t, since, m) || SeenClosed(s, t) || !Closing(s.post)
  {
  }

  lemma SlaveStepWaits(cfg: Config, s: Step, t: nat, since: uint32, m: int)
    requires IsStep(cfg, s) && s.pre.state == GridOn && Waiting(s.pre, t, since, m)
    ensures Waiting(s.post, t, since, m) || Settles(cfg, s, t, since, m) || !Closing(s.post)
  {
  }

  lemma StepWaits(cfg: Config, s: Step, t: nat, since: uint32, m: int)
    requires IsStep(cfg, s)
    ensures WaitsFor(cfg, s, t, since, m)
  {
    if !Closing(s.pre) {
      ClosingStartsWithSwitchOn(cfg, s);
    } else if Waiting(s.pre, t, since, m) {
      if s.pre.state == MasterGridOn {
        MasterStepWaits(cfg, s, t, since, m);
      } else {
        SlaveStepWaits(cfg, s, t, since, m);
      }
    }
  }

  lemma RunWaits(cfg: Config, run: seq<Step>, t: nat, since: uint32, m: int)
    requires IsRun(cfg, run)
    ensures forall k :: 0 <= k < |run| ==> WaitsFor(cfg, run[k], t, since, m)
  {
    forall k | 0 <= k < |run| ensures WaitsFor(cfg, run[k], t, since, m) {
      assert IsStep(cfg, run[k]);
      StepWaits(cfg, run[k], t, since, m);
    }
  }

  datatype Wait = Pending | Settled(k: nat) | Abandoned

  lemma {:induction false} WaitAt(cfg: Config, run: seq<Step>, i: nat, t: nat, since: uint32, m: int, n: nat)
    returns (w: Wait)
    requires Linked(run) && forall k :: 0 <= k < |run| ==> WaitsFor(cfg, run[k], t, since, m)
    requires i < n < |run| && Waiting(run[i].post, t, since, m)
    requires forall l :: i < l < n ==> !SwitchesSome(run[l])
    ensures match w
      case Pending => Waiting(run[n].pre, t, since, m)
      case Settled(k) => i < k < n && Settles(cfg, run[k], t, since, m)
      case Abandoned => !Closing(run[n].pre)
  {
    var s := run[n - 1];
    assert run[n].pre == s.post.(clusters := run[n].pre.clusters);
    if n == i + 1 {
      w := Pending;
    } else {
      w := WaitAt(cfg, run, i, t, since, m, n - 1);
      assert WaitsFor(cfg, s, t, since, m) && !SwitchesSome(s);
      if w.Pending? {
        w := if Settles(cfg, s, t, since, m) then Settled(n - 1)
             else if Closing(s.post) then Pending else Abandoned;
      }
    }
  }

  lemma SwitchOnStartsWait(cfg: Config, run: seq<Step>, i: nat, t: nat)
    requires IsRun(cfg, run) && i < |run| && Switches(run[i], t)
    ensures Waiting(run[i].post, t, run[i].inp.now, run[i].post.master)
    ensures run[i].pre.state == Prepare <==> t == run[i].post.master
  {
    RunKeepsInv(cfg, run, i);
    assert IsStep(cfg, run[i]);
    SwitchOnIsGuarded(cfg, run[i], t);
  }

  /** Between two consecutive switch-ons of one grid-on episode, the first target was seen closed, or
      its time ran out on the 32-bit clock and it was dropped; the master, which is the target of the
      episode's first switch-on, was always seen closed. */
  lemma SwitchOnsAreSerial(cfg: Config, run: seq<Step>, i: nat, j: nat, t: nat) returns (k: nat)
    requires IsRun(cfg, run) && i < j < |run|
    requires Switches(run[i], t) && SwitchesSome(run[j]) && run[j].pre.state == GridOn
    requires forall l :: i < l < j ==> !SwitchesSome(run[l])
    ensures i < k < j && (SeenClosed(run[k], t) || Dropped(cfg, run[k], t, run[i].inp.now))
    ensures run[i].pre.state == Prepare ==> SeenClosed(run[k], t)
  {
    var since, m := run[i].inp.now, run[i].post.master;
    var u: nat :| Switches(run[j], u);
    SwitchOnStates(cfg, run, j, u);
    SwitchOnStartsWait(cfg, run, i, t);
    RunIsLinked(cfg, run);
    RunWaits(cfg, run, t, since, m);
    var w := WaitAt(cfg, run, i, t, since, m, j);
    k := w.k;
  }

  // ---------------------------------------------------------------- timeouts of an episode

  /** The steps `[i, j)` belong to one episode: Prepare, then closing contactors. */
  ghost predicate IsEpisode(run: seq<Step>, i: nat, j: nat) {
    && i < j <= |run| && run[i].pre.state == Prepare
    && forall n :: i < n < j ==> Closing(run[n].pre)
  }

  /** Step `s` gives up waiting for a slave cluster. */
  ghost predicate SlaveTimesOut(cfg: Config, s: Step) {
    && s.pre.state == GridOn && s.pre.pending < |s.pre.clusters|
    && !s.pre.clusters[s.pre.pending].contactorOn
    && Elapsed(s.inp.now, s.pre.timer) > cfg.powerOnTimeoutMs
  }

  /** Step `s` gives up waiting for the master. */
  ghost predicate MasterTimesOut(cfg: Config, s: Step) {
    && s.pre.state == MasterGridOn && 0 <= s.pre.master < |s.pre.clusters|
    && var m := s.pre.clusters[s.pre.master];
    && m.online && !m.fault && !m.contactorOn
    && Elapsed(s.inp.now, s.pre.timer) > cfg.powerOnTimeoutMs
  }

  ghost predicate TimesOut(cfg: Config, s: Step) {
    SlaveTimesOut(cfg, s) || MasterTimesOut(cfg, s)
  }

  ghost function Timeouts(cfg: Config, run: seq<Step>, i: nat, j: nat): nat
    requires i <= j <= |run|
    decreases j
  {
    if i == j then 0 else Timeouts(cfg, run, i, j - 1) + if TimesOut(cfg, run[j - 1]) then 1 else 0
  }

  /** The part of a call that matters for the number of valid clusters. */
  ghost predicate CountsDown(cfg: Config, s: Step) {
    s.pre.state == Prepare || Closing(s.pre) ==>
      && s.post.validCnt == s.pre.validCnt - (if SlaveTimesOut(cfg, s) then 1 else 0)
      && s.post.validCnt >= 1
      && (Closing(s.post) ==> s.post.validCnt >= cfg.minOnline && !MasterTimesOut(cfg, s))
      && (s.post.state == MasterGridOn ==> s.pre.state != GridOn)
  }

  lemma StepCountsDown(cfg: Config, s: Step)
    requires IsStep(cfg, s) && Inv(cfg, s.pre) && Inv(cfg, s.post)
    ensures CountsDown(cfg, s)
  {
    if Closing(s.pre) {
      CountAtLeastOne(s.pre.clusters, s.pre.master);
      if s.pre.state == GridOn && s.pre.pending != NO_PENDING {
        PendingKeepsInv(cfg, s.pre, s.inp.now);
      }
    }
  }

  lemma RunCountsDown(cfg: Config, run: seq<Step>)
    requires IsRun(cfg, run)
    ensures forall k :: 0 <= k < |run| ==> CountsDown(cfg, run[k])
  {
    forall k | 0 <= k < |run| ensures CountsDown(cfg, run[k]) {
      RunKeepsInv(cfg, run, k);
      assert IsStep(cfg, run[k]);
      StepCountsDown(cfg, run[k]);
    }
  }

  lemma CountStep(cfg: Config, s: Step, next: Step)
    requires CountsDown(cfg, s) && (s.pre.state == Prepare || Closing(s.pre)) && Closing(next.pre)
    requires next.pre == s.post.(clusters := next.pre.clusters)
    ensures next.pre.validCnt == s.pre.validCnt - if TimesOut(cfg, s) then 1 else 0
    ensures next.pre.validCnt >= cfg.minOnline
    ensures next.pre.state != GridOn ==> s.pre.state != GridOn && !TimesOut(cfg, s)
  {
  }

  /** How far an episode has got before step `n`: every timeout so far has lowered the count, and there has
      been none as long as the machine waits for the master. */
  lemma {:induction false} CountBefore(cfg: Config, run: seq<Step>, i: nat, n: nat)
    requires Linked(run) && forall k :: 0 <= k < |run| ==> CountsDown(cfg, run[k])
    requires IsEpisode(run, i, n + 1)
    ensures run[n].pre.validCnt == run[i].pre.validCnt - Timeouts(cfg, run, i, n)
    ensures i < n ==> run[n].pre.validCnt >= cfg.minOnline
    ensures run[n].pre.state != GridOn ==> Timeouts(cfg, run, i, n) == 0
    decreases n
  {
    if i < n {
      CountBefore(cfg, run, i, n - 1);
      CountStep(cfg, run[n - 1], run[n]);
    }
  }

  lemma CountAfter(cfg: Config, run: seq<Step>, i: nat, j: nat)
    requires Linked(run) && forall k :: 0 <= k < |run| ==> CountsDown(cfg, run[k])
    requires IsEpisode(run, i, j) && cfg.minOnline <= run[i].pre.validCnt
    ensures var n := Timeouts(cfg, run, i, j); var left := run[i].pre.validCnt - n;
      && n <= run[i].pre.validCnt - cfg.minOnline + 1
      && if MasterTimesOut(cfg, run[j - 1]) then n == 1 && run[j - 1].post.validCnt == run[i].pre.validCnt
         else run[j - 1].post.validCnt == left >= 1
  {
    CountBefore(cfg, run, i, j - 1);
    assert CountsDown(cfg, run[j - 1]);
    assert Timeouts(cfg, run, i, j) == Timeouts(cfg, run, i, j - 1) + if TimesOut(cfg, run[j - 1]) then 1 else 0;
  }

  lemma StartHasEnough(cfg: Config, run: seq<Step>, i: nat)
    requires IsRun(cfg, run) && i < |run| && run[i].pre.state == Prepare
    ensures cfg.minOnline <= run[i].pre.validCnt
  {
    RunKeepsInv(cfg, run, i);
  }

  /** An episode that starts with `v` clusters has at most `v - min + 1` timeouts, the master's among them.
      A timeout of the master is the only one and ends the episode; slave timeouts are at most `v - 1`, and
      the count always tells how many there were. */
  lemma TimeoutsAreBounded(cfg: Config, run: seq<Step>, i: nat, j: nat)
    requires IsRun(cfg, run) && IsEpisode(run, i, j)
    ensures Timeouts(cfg, run, i, j) <= run[i].pre.validCnt - cfg.minOnline + 1
    ensures if MasterTimesOut(cfg, run[j - 1])
            then Timeouts(cfg, run, i, j) == 1 && run[j - 1].post.validCnt == run[i].pre.validCnt
            else run[j - 1].post.validCnt == run[i].pre.validCnt - Timeouts(cfg, run, i, j) >= 1
  {
    StartHasEnough(cfg, run, i);
    RunIsLinked(cfg, run);
    RunCountsDown(cfg, run);
    CountAfter(cfg, run, i, j);
  }

  // ---------------------------------------------------------------- a dropped cluster stays out

  predicate IsSelected(c: Ctrl, t: nat) {
    t < |c.clusters| && c.clusters[t].selected
  }

  /** The part of a call that matters for a cluster that is not selected. */
  ghost predicate KeepsOut(s: Step, t: nat) {
    s.pre.state != Prepare && !IsSelected(s.pre, t) ==> !IsSelected(s.post, t) && !Switches(s, t)
  }

  lemma StepKeepsOut(cfg: Config, s: Step, t: nat)
    requires IsStep(cfg, s) && Inv(cfg, s.pre) && Inv(cfg, s.post) && t < MAX_CLUSTER_NUM
    ensures KeepsOut(s, t)
  {
    if Switches(s, t) {
      SwitchOnIsGuarded(cfg, s, t);
    }
  }

  lemma RunKeepsOut(cfg: Config, run: seq<Step>, t: nat)
    requires IsRun(cfg, run) && t < MAX_CLUSTER_NUM
    ensures forall k :: 0 <= k < |run| ==> KeepsOut(run[k], t)
    ensures forall k {:trigger run[k].post} :: 0 <= k < |run| - 1 ==>
              (IsSelected(run[k + 1].pre, t) <==> IsSelected(run[k].post, t))
  {
    forall k | 0 <= k < |run| ensures KeepsOut(run[k], t) {
      RunKeepsInv(cfg, run, k);
      assert IsStep(cfg, run[k]);
      StepKeepsOut(cfg, run[k], t);
    }
    forall k {:trigger run[k].post} | 0 <= k < |run| - 1
      ensures IsSelected(run[k + 1].pre, t) <==> IsSelected(run[k].post, t)
    {
      assert Environment(run[k].post, run[k + 1].pre);
    }
  }

  lemma {:induction false} StaysOut(run: seq<Step>, i: nat, j: nat, t: nat)
    requires forall k :: 0 <= k < |run| ==> KeepsOut(run[k], t)
    requires forall k {:trigger run[k].post} :: 0 <= k < |run| - 1 ==>
               (IsSelected(run[k + 1].pre, t) <==> IsSelected(run[k].post, t))
    requires i < j < |run| && !IsSelected(run[i].post, t)
    requires forall n :: i < n <= j ==> run[n].pre.state != Prepare
    ensures !IsSelected(run[j].post, t) && !Switches(run[j], t)
    decreases j
  {
    if j > i + 1 {
      StaysOut(run, i, j - 1, t);
    }
    assert KeepsOut(run[j], t) && KeepsOut(run[j - 1], t);
    assert IsSelected(run[j - 1 + 1].pre, t) <==> IsSelected(run[j - 1].post, t);
  }

  /** A cluster dropped from the selection gets no switch-on before the next Prepare. */
  lemma DroppedStaysOut(cfg: Config, run: seq<Step>, i: nat, j: nat, t: nat)
    requires IsRun(cfg, run) && i < j < |run| && t < MAX_CLUSTER_NUM
    requires !IsSelected(run[i].post, t)
    requires forall n :: i < n <= j ==> run[n].pre.state != Prepare
    ensures !Switches(run[j], t)
  {
    RunKeepsOut(cfg, run, t);
    StaysOut(run, i, j, t);
  }

  // ---------------------------------------------------------------- nothing happens without a ready rack

  ghost predicate NobodyReady(c: Ctrl) {
    forall i :: 0 <= i < |c.clusters| ==> !c.clusters[i].ready
  }

  predicate AtRest(c: Ctrl) {
    c.state in {Init, SelfCheck, Standby, Fault}
  }

  lemma NoSelectionUnready(cs: seq<Cluster>, rbmsNum: uint16, cfg: Config, list: seq<nat>)
    requires forall i :: 0 <= i < |cs| ==> !cs[i].ready
    ensures !SelectionSucceeds(cs, rbmsNum, cfg, list)
  {
    if list != [] {
      assert list[0] in Members(list);
    }
  }

  lemma UnreadyStepRests(cfg: Config, s: Step)
    requires IsStep(cfg, s) && AtRest(s.pre) && NobodyReady(s.pre)
    ensures AtRest(s.post) && !SwitchesSome(s)
  {
    forall list: seq<nat> ensures !SelectionSucceeds(s.pre.clusters, s.inp.rbmsNum, cfg, list) {
      NoSelectionUnready(s.pre.clusters, s.inp.rbmsNum, cfg, list);
    }
    if s.pre.state == Fault {
      forall t: nat ensures !Switches(s, t) {
        OffCommandsOnlySwitchOff(s.pre.clusters, Any(), t);
      }
    }
  }

  /** As long as no rack has ever been ready, the machine never starts to close contactors. */
  lemma {:induction false} UnreadyNeverCloses(cfg: Config, run: seq<Step>, n: nat)
    requires IsRun(cfg, run) && n < |run|
    requires forall k :: 0 <= k <= n ==> NobodyReady(run[k].pre)
    ensures AtRest(run[n].post) && !SwitchesSome(run[n])
  {
    if n > 0 {
      UnreadyNeverCloses(cfg, run, n - 1);
      assert Environment(run[n - 1].post, run[n].pre);
    }
    assert IsStep(cfg, run[n]);
    UnreadyStepRests(cfg, run[n]);
  }
}
