/** With healthy racks that close when they are asked to, an episode of closing contactors ends in Run exactly when no
    selected cluster is exactly the voltage limit away from the master. */
module CentralProgress {
  import opened MachineInts
  import opened ClusterSelection
  import opened CentralSpec
  import opened CentralRuns
  import opened CentralStall

  // ---------------------------------------------------------------- the cause, at the selection

  predicate AtLimit(cs: seq<Cluster>, m: nat, diff: uint8, i: nat)
    requires m < |cs| && i < |cs|
  {
    cs[i].voltage - cs[m].voltage == diff || cs[m].voltage - cs[i].voltage == diff
  }

  /** Among the clusters of a selection, an open one may be switched on exactly when it is not exactly the limit away
      from the master. */
  lemma TargetIffNotAtLimit(cs: seq<Cluster>, rbmsNum: uint16, cfg: Config, list: seq<nat>, m: nat, i: nat)
    requires SelectionSucceeds(cs, rbmsNum, cfg, list)
    requires m in list && i in list && i != m && !cs[i].contactorOn
    ensures IsTarget(Selected(cs, list), m, cfg.allowVoltDiff, i) <==> !AtLimit(cs, m, cfg.allowVoltDiff, i)
  {
    assert m in Members(list) && i in Members(list);
  }

  // ---------------------------------------------------------------- racks that obey

  /** The racks report the same as before, except that each one asked to close has closed, and each one asked to open
      has opened. */
  function Obeyed(cs: seq<Cluster>, cmds: seq<Command>): (ds: seq<Cluster>)
    ensures |ds| == |cs|
  {
    seq(|cs|, k requires 0 <= k < |cs| =>
      cs[k].(contactorOn := SwitchOn(k) in cmds || (cs[k].contactorOn && SwitchOff(k) !in cmds)))
  }

  ghost predicate Obeys(s: Step, next: Step) {
    next.pre == s.post.(clusters := Obeyed(s.post.clusters, s.cmds))
  }

  /** The calls from `i` on, which starts with a successful selection while all contactors are open, with racks that
      obey. */
  ghost predicate IsObedientEpisode(cfg: Config, run: seq<Step>, i: nat) {
    && IsRun(cfg, run) && i + 2 < |run|
    && SelectsAfresh(cfg, run[i]) && AllOpen(run[i].pre.clusters)
    && forall k {:trigger run[k].post} :: i <= k < |run| - 1 ==> Obeys(run[k], run[k + 1])
  }

  /** The clusters as they were selected, with the contactors of `closed` closed since. */
  ghost predicate ClosedSoFar(base: seq<Cluster>, list: seq<nat>, closed: set<nat>, cs: seq<Cluster>) {
    && |base| == |cs| == MAX_CLUSTER_NUM && closed <= Members(list)
    && forall k :: 0 <= k < |cs| ==> cs[k] == base[k].(selected := k in list, contactorOn := k in closed)
  }

  /** The machine within the episode, with master `m`, before a call. */
  ghost predicate Closes(base: seq<Cluster>, list: seq<nat>, m: nat, closed: set<nat>, c: Ctrl) {
    && ClosedSoFar(base, list, closed, c.clusters)
    && c.master == m && m in closed
    && ((c.state == MasterGridOn && c.pending == NO_PENDING && closed == {m})
        || (c.state == GridOn && (c.pending == NO_PENDING || c.pending in closed)))
  }

  /** What is known of the selection. */
  ghost predicate IsSelection(cfg: Config, rbmsNum: uint16, base: seq<Cluster>, list: seq<nat>) {
    |base| == MAX_CLUSTER_NUM && AllOpen(base) && SelectionSucceeds(base, rbmsNum, cfg, list)
  }

  lemma SelectedIsHealthy(cfg: Config, rbmsNum: uint16, base: seq<Cluster>, list: seq<nat>, i: nat)
    requires IsSelection(cfg, rbmsNum, base, list) && i in list
    ensures i < MAX_CLUSTER_NUM && base[i].online && !base[i].fault && !base[i].contactorOn
  {
    assert i in Members(list);
  }

  // ---------------------------------------------------------------- from the selection to the closed master

  lemma MasterIsInList(cfg: Config, rbmsNum: uint16, base: seq<Cluster>, list: seq<nat>, cs: seq<Cluster>, m: int)
    requires IsSelection(cfg, rbmsNum, base, list)
    requires |cs| == |base| && forall k :: 0 <= k < |cs| ==> cs[k].voltage == base[k].voltage
    requires InRange(cs, list) && IsMaster(cs, list, m)
    ensures m in list
  {
    SelectionIsNarrow(base, rbmsNum, cfg, list);
    MeanIsNear(cs, list);
  }

  lemma PrepareStep(cfg: Config, rbmsNum: uint16, list: seq<nat>, s: Step)
    requires IsStep(cfg, s) && s.pre.state == Prepare && s.pre.validCnt <= MAX_CLUSTER_NUM
    requires list == s.pre.valid[..s.pre.validCnt] && IsSelection(cfg, rbmsNum, s.pre.clusters, list)
    ensures 0 <= s.post.master < MAX_CLUSTER_NUM && s.post.master in list
    ensures s.post.state == MasterGridOn && s.post.pending == NO_PENDING && s.cmds == [SwitchOn(s.post.master)]
    ensures s.post.clusters == Selected(s.pre.clusters, list)
  {
    MasterIsInList(cfg, rbmsNum, s.pre.clusters, list, Selected(s.pre.clusters, list), s.post.master);
    assert s.post.master in Members(list);
  }

  lemma MasterCloses(cfg: Config, rbmsNum: uint16, base: seq<Cluster>, list: seq<nat>, m: nat, cs: seq<Cluster>)
    requires IsSelection(cfg, rbmsNum, base, list) && m in list && cs == Obeyed(Selected(base, list), [SwitchOn(m)])
    ensures ClosedSoFar(base, list, {m}, cs)
  {
  }

  // ---------------------------------------------------------------- one call

  /** With no commands the racks stay as they are. */
  lemma NothingChanges(cs: seq<Cluster>)
    ensures Obeyed(cs, []) == cs
  {
  }

  lemma MasterSeen(cfg: Config, rbmsNum: uint16, base: seq<Cluster>, list: seq<nat>, m: nat, s: Step)
    requires IsSelection(cfg, rbmsNum, base, list) && IsStep(cfg, s)
    requires Closes(base, list, m, {m}, s.pre) && s.pre.state == MasterGridOn
    ensures s.cmds == [] && s.post == s.pre.(timer := s.inp.now, state := GridOn)
  {
    SelectedIsHealthy(cfg, rbmsNum, base, list, m);
  }

  lemma PendingSeen(cfg: Config, base: seq<Cluster>, list: seq<nat>, m: nat, closed: set<nat>, s: Step)
    requires IsStep(cfg, s) && Closes(base, list, m, closed, s.pre)
    requires s.pre.state == GridOn && s.pre.pending != NO_PENDING
    ensures s.cmds == [] && s.post == s.pre.(pending := NO_PENDING)
  {
  }

  /** In the episode the clusters that may be switched on are the selected ones that are open and not at the limit. */
  lemma TargetsOfEpisode(cfg: Config, rbmsNum: uint16, base: seq<Cluster>, list: seq<nat>, m: nat, closed: set<nat>,
                         cs: seq<Cluster>, i: nat)
    requires IsSelection(cfg, rbmsNum, base, list) && ClosedSoFar(base, list, closed, cs) && m in closed
    ensures m in list && m < MAX_CLUSTER_NUM
    ensures IsTarget(cs, m, cfg.allowVoltDiff, i) <==>
              i in list && i !in closed && i < MAX_CLUSTER_NUM && !AtLimit(base, m, cfg.allowVoltDiff, i)
  {
    SelectedIsHealthy(cfg, rbmsNum, base, list, m);
    if i in list {
      SelectedIsHealthy(cfg, rbmsNum, base, list, i);
      if i != m {
        TargetIffNotAtLimit(base, rbmsNum, cfg, list, m, i);
      }
    }
  }

  lemma OneMoreCloses(base: seq<Cluster>, list: seq<nat>, closed: set<nat>, cs: seq<Cluster>, t: nat)
    requires ClosedSoFar(base, list, closed, cs) && t in list && t < |cs|
    ensures ClosedSoFar(base, list, closed + {t}, Obeyed(cs, [SwitchOn(t)]))
  {
  }

  ghost predicate HasTarget(base: seq<Cluster>, list: seq<nat>, m: nat, diff: uint8, closed: set<nat>)
    requires m < |base|
  {
    exists i :: i in list && i !in closed && i < |base| && !AtLimit(base, m, diff, i)
  }

  lemma AllClosedIff(base: seq<Cluster>, list: seq<nat>, closed: set<nat>, cs: seq<Cluster>)
    requires ClosedSoFar(base, list, closed, cs) && InRange(base, list)
    ensures AllSelectedOn(cs) <==> Members(list) <= closed
  {
    if AllSelectedOn(cs) {
      forall i | i in Members(list) ensures i in closed {
        assert cs[i].selected;
      }
    }
  }

  /** An idle call switches on one of the targets, or finds the end. */
  lemma IdleDecides(cfg: Config, rbmsNum: uint16, base: seq<Cluster>, list: seq<nat>, m: nat, closed: set<nat>, s: Step)
    returns (t: nat)
    requires IsSelection(cfg, rbmsNum, base, list) && IsStep(cfg, s) && m < |base|
    requires Closes(base, list, m, closed, s.pre) && s.pre.state == GridOn && s.pre.pending == NO_PENDING
    ensures HasTarget(base, list, m, cfg.allowVoltDiff, closed) ==>
              && t in list && t !in closed && t < MAX_CLUSTER_NUM && !AtLimit(base, m, cfg.allowVoltDiff, t)
              && s.cmds == [SwitchOn(t)] && s.post == s.pre.(pending := t, timer := s.inp.now)
    ensures !HasTarget(base, list, m, cfg.allowVoltDiff, closed) ==>
              s.cmds == [] && s.post == if Members(list) <= closed then s.pre.(state := Run) else s.pre
  {
    forall i: nat
      ensures IsTarget(s.pre.clusters, m, cfg.allowVoltDiff, i) <==>
                i in list && i !in closed && i < MAX_CLUSTER_NUM && !AtLimit(base, m, cfg.allowVoltDiff, i)
    {
      TargetsOfEpisode(cfg, rbmsNum, base, list, m, closed, s.pre.clusters, i);
    }
    AllClosedIff(base, list, closed, s.pre.clusters);
    t := 0;
    if HasTarget(base, list, m, cfg.allowVoltDiff, closed) {
      t :| IsTarget(s.pre.clusters, m, cfg.allowVoltDiff, t) && s.cmds == [SwitchOn(t)]
           && s.post == s.pre.(pending := t, timer := s.inp.now);
    }
  }

  // ---------------------------------------------------------------- one call and the racks' answer

  function ClosedOf(cs: seq<Cluster>): set<nat> {
    set k: nat | k < |cs| && cs[k].contactorOn
  }

  lemma ClosedIsKnown(base: seq<Cluster>, list: seq<nat>, closed: set<nat>, cs: seq<Cluster>)
    requires ClosedSoFar(base, list, closed, cs) && InRange(base, list)
    ensures ClosedOf(cs) == closed
  {
    forall k: nat | k < |cs| ensures k in closed <==> cs[k].contactorOn {
    }
  }

  ghost predicate InEpisode(base: seq<Cluster>, list: seq<nat>, m: nat, c: Ctrl) {
    Closes(base, list, m, ClosedOf(c.clusters), c)
  }

  /** Calls still needed at most: two for each cluster to close, and one that sees the last asked one closed. */
  function StepsLeft(list: seq<nat>, c: Ctrl): nat {
    2 * |Members(list) - ClosedOf(c.clusters)| + if c.state == MasterGridOn || c.pending != NO_PENDING then 1 else 0
  }

  lemma QuietStep(s: Step, next: Step)
    requires Obeys(s, next) && s.cmds == []
    ensures next.pre == s.post
  {
    NothingChanges(s.post.clusters);
  }

  /** A call that only waits for the last switched-on cluster sees it closed. */
  lemma SeenStep(cfg: Config, rbmsNum: uint16, base: seq<Cluster>, list: seq<nat>, m: nat, s: Step, next: Step)
    requires IsSelection(cfg, rbmsNum, base, list) && IsStep(cfg, s) && Obeys(s, next)
    requires InEpisode(base, list, m, s.pre) && (s.pre.state == MasterGridOn || s.pre.pending != NO_PENDING)
    ensures s.post.state == GridOn && next.pre.clusters == s.pre.clusters
    ensures InEpisode(base, list, m, next.pre) && StepsLeft(list, next.pre) < StepsLeft(list, s.pre)
  {
    if s.pre.state == MasterGridOn {
      MasterSeen(cfg, rbmsNum, base, list, m, s);
    } else {
      PendingSeen(cfg, base, list, m, ClosedOf(s.pre.clusters), s);
    }
    QuietStep(s, next);
  }

  /** A call with nothing pending and a target `t` closes it. */
  lemma CloseStep(base: seq<Cluster>, list: seq<nat>, m: nat, s: Step, next: Step, t: nat)
    requires InRange(base, list) && t in list && t !in ClosedOf(s.pre.clusters) && t < MAX_CLUSTER_NUM
    requires InEpisode(base, list, m, s.pre) && s.pre.state == GridOn && s.pre.pending == NO_PENDING
    requires s.cmds == [SwitchOn(t)] && s.post == s.pre.(pending := t, timer := s.inp.now) && Obeys(s, next)
    ensures ClosedOf(next.pre.clusters) == ClosedOf(s.pre.clusters) + {t}
    ensures InEpisode(base, list, m, next.pre) && StepsLeft(list, next.pre) < StepsLeft(list, s.pre)
  {
    var closed := ClosedOf(s.pre.clusters);
    var closed' := closed + {t};
    OneMoreCloses(base, list, closed, s.pre.clusters, t);
    ClosedIsKnown(base, list, closed', next.pre.clusters);
    assert Members(list) - closed == (Members(list) - closed') + {t};
  }

  /** A call within the episode enters Run; or gets one step nearer to it, closing nothing that is at the limit; or
      finds something open and nothing to close. */
  lemma EpisodeStep(cfg: Config, rbmsNum: uint16, base: seq<Cluster>, list: seq<nat>, m: nat, s: Step, next: Step)
    requires IsSelection(cfg, rbmsNum, base, list) && InRange(base, list) && m < |base|
    requires IsStep(cfg, s) && Obeys(s, next) && InEpisode(base, list, m, s.pre)
    ensures s.post.state != Run ==> InEpisode(base, list, m, next.pre)
    ensures s.post.state != Run ==> forall i :: i in list && AtLimit(base, m, cfg.allowVoltDiff, i) ==>
              (i in ClosedOf(next.pre.clusters) <==> i in ClosedOf(s.pre.clusters))
    ensures s.post.state == Run || StepsLeft(list, next.pre) < StepsLeft(list, s.pre)
            || (!HasTarget(base, list, m, cfg.allowVoltDiff, ClosedOf(s.pre.clusters))
                && !(Members(list) <= ClosedOf(s.pre.clusters)))
  {
    if s.pre.state == MasterGridOn || s.pre.pending != NO_PENDING {
      SeenStep(cfg, rbmsNum, base, list, m, s, next);
    } else {
      var closed := ClosedOf(s.pre.clusters);
      var t := IdleDecides(cfg, rbmsNum, base, list, m, closed, s);
      if HasTarget(base, list, m, cfg.allowVoltDiff, closed) {
        CloseStep(base, list, m, s, next, t);
      } else {
        QuietStep(s, next);
      }
    }
  }

  /** Only with everything closed does a call within the episode enter Run. */
  lemma RunMeansClosed(cfg: Config, rbmsNum: uint16, base: seq<Cluster>, list: seq<nat>, m: nat, s: Step)
    requires IsSelection(cfg, rbmsNum, base, list) && m < |base|
    requires IsStep(cfg, s) && InEpisode(base, list, m, s.pre)
    ensures s.post.state == Run ==> Members(list) <= ClosedOf(s.pre.clusters)
  {
    var closed := ClosedOf(s.pre.clusters);
    if s.pre.state == MasterGridOn {
      MasterSeen(cfg, rbmsNum, base, list, m, s);
    } else if s.pre.pending != NO_PENDING {
      PendingSeen(cfg, base, list, m, closed, s);
    } else {
      var t := IdleDecides(cfg, rbmsNum, base, list, m, closed, s);
    }
  }

  // ---------------------------------------------------------------- the episode

  /** No selected cluster is exactly the limit away from the master. */
  ghost predicate NoneAtLimit(base: seq<Cluster>, list: seq<nat>, m: nat, diff: uint8)
    requires m < |base| && InRange(base, list)
  {
    forall i :: i in list && i != m ==> !AtLimit(base, m, diff, i)
  }

  lemma NoTargetsLeft(base: seq<Cluster>, list: seq<nat>, m: nat, diff: uint8, closed: set<nat>)
    requires m < |base| && InRange(base, list) && m in closed && NoneAtLimit(base, list, m, diff)
    ensures HasTarget(base, list, m, diff, closed) || Members(list) <= closed
  {
    if !(Members(list) <= closed) {
      var i :| i in Members(list) && i !in closed;
      assert !AtLimit(base, m, diff, i);
    }
  }

  /** What the two inductions keep of a call: whether the episode is on, whether the call enters Run, and the steps
      left. */
  datatype Mark = Mark(on: bool, done: bool, left: nat)

  predicate Nears(a: Mark, b: Mark) {
    a.on && !a.done ==> b.on && b.left < a.left
  }

  predicate Stays(a: Mark, b: Mark) {
    a.on ==> b.on && !a.done
  }

  ghost predicate NearsAt(marks: seq<Mark>, k: nat) {
    k + 1 < |marks| ==> Nears(marks[k], marks[k + 1])
  }

  ghost predicate StaysAt(marks: seq<Mark>, k: nat) {
    && (k < |marks| && marks[k].on ==> !marks[k].done)
    && (k + 1 < |marks| ==> Stays(marks[k], marks[k + 1]))
  }

  lemma {:induction false} NearsToTheEnd(marks: seq<Mark>, n: nat) returns (j: nat)
    requires forall k :: n <= k ==> NearsAt(marks, k)
    requires n < |marks| && marks[n].on && n + marks[n].left + 1 < |marks|
    ensures n <= j < |marks| && marks[j].done
    decreases |marks| - n
  {
    if marks[n].done {
      j := n;
    } else {
      assert NearsAt(marks, n);
      j := NearsToTheEnd(marks, n + 1);
    }
  }

  lemma {:induction false} StaysForEver(marks: seq<Mark>, n: nat, j: nat)
    requires forall k :: n <= k ==> StaysAt(marks, k)
    requires n <= j < |marks| && marks[n].on
    ensures !marks[j].done
    decreases j - n
  {
    assert StaysAt(marks, n);
    if n < j {
      StaysForEver(marks, n + 1, j);
    }
  }

  lemma EpisodeStarts(cfg: Config, run: seq<Step>, i: nat) returns (m: nat)
    requires IsObedientEpisode(cfg, run, i)
    ensures var base, list := run[i].pre.clusters, run[i].post.valid[..run[i].post.validCnt];
      && IsSelection(cfg, run[i].inp.rbmsNum, base, list) && InRange(base, list)
      && m < |base| && m in list && run[i + 1].post.master == m
      && run[i + 2].pre.state == MasterGridOn && Closes(base, list, m, {m}, run[i + 2].pre)
  {
    var s, p := run[i], run[i + 1];
    var base, list := s.pre.clusters, s.post.valid[..s.post.validCnt];
    assert IsStep(cfg, s) && IsStep(cfg, p);
    assert Obeys(s, p) && Obeys(p, run[i + 1 + 1]);
    NothingChanges(base);
    SelectionStep(cfg, s);
    PrepareStep(cfg, s.inp.rbmsNum, list, p);
    m := p.post.master;
    MasterCloses(cfg, s.inp.rbmsNum, base, list, m, run[i + 2].pre.clusters);
  }

  lemma SelectionStep(cfg: Config, s: Step)
    requires IsStep(cfg, s) && SelectsAfresh(cfg, s)
    ensures s.cmds == [] && s.post.clusters == s.pre.clusters && s.post.validCnt <= MAX_CLUSTER_NUM
    ensures |s.pre.clusters| == MAX_CLUSTER_NUM
  {
  }

  /** The calls as `on` while they are in the episode and the clusters `open` are open. */
  ghost function Marks(base: seq<Cluster>, list: seq<nat>, m: nat, open: set<nat>, run: seq<Step>): (marks: seq<Mark>)
    ensures |marks| == |run|
  {
    seq(|run|, k requires 0 <= k < |run| => MarkOf(base, list, m, open, run[k]))
  }

  ghost function MarkOf(base: seq<Cluster>, list: seq<nat>, m: nat, open: set<nat>, s: Step): Mark {
    Mark(InEpisode(base, list, m, s.pre) && open !! ClosedOf(s.pre.clusters), s.post.state == Run,
         StepsLeft(list, s.pre))
  }

  lemma StepNears(cfg: Config, rbmsNum: uint16, base: seq<Cluster>, list: seq<nat>, m: nat, s: Step, next: Step)
    requires IsSelection(cfg, rbmsNum, base, list) && InRange(base, list) && m < |base|
    requires NoneAtLimit(base, list, m, cfg.allowVoltDiff) && IsStep(cfg, s) && Obeys(s, next)
    ensures Nears(MarkOf(base, list, m, {}, s), MarkOf(base, list, m, {}, next))
  {
    if InEpisode(base, list, m, s.pre) {
      NoTargetsLeft(base, list, m, cfg.allowVoltDiff, ClosedOf(s.pre.clusters));
      EpisodeStep(cfg, rbmsNum, base, list, m, s, next);
    }
  }

  lemma StepStays(cfg: Config, rbmsNum: uint16, base: seq<Cluster>, list: seq<nat>, m: nat, b: nat, s: Step, next: Step)
    requires IsSelection(cfg, rbmsNum, base, list) && InRange(base, list) && m < |base|
    requires b in list && AtLimit(base, m, cfg.allowVoltDiff, b) && IsStep(cfg, s) && Obeys(s, next)
    ensures Stays(MarkOf(base, list, m, {b}, s), MarkOf(base, list, m, {b}, next))
  {
    if MarkOf(base, list, m, {b}, s).on {
      StepNotRun(cfg, rbmsNum, base, list, m, b, s);
      EpisodeStep(cfg, rbmsNum, base, list, m, s, next);
    }
  }

  lemma StepNotRun(cfg: Config, rbmsNum: uint16, base: seq<Cluster>, list: seq<nat>, m: nat, b: nat, s: Step)
    requires IsSelection(cfg, rbmsNum, base, list) && m < |base| && b in list && IsStep(cfg, s)
    ensures MarkOf(base, list, m, {b}, s).on ==> !MarkOf(base, list, m, {b}, s).done
  {
    if MarkOf(base, list, m, {b}, s).on {
      RunMeansClosed(cfg, rbmsNum, base, list, m, s);
      assert b in {b} && b in Members(list);
    }
  }

  ghost predicate Obedient(cfg: Config, run: seq<Step>, n: nat) {
    && (forall k :: n <= k < |run| ==> IsStep(cfg, run[k]))
    && forall k {:trigger run[k].post} :: n <= k < |run| - 1 ==> Obeys(run[k], run[k + 1])
  }

  lemma MarksNear(cfg: Config, rbmsNum: uint16, base: seq<Cluster>, list: seq<nat>, m: nat, run: seq<Step>, k: nat)
    requires IsSelection(cfg, rbmsNum, base, list) && InRange(base, list) && m < |base|
    requires NoneAtLimit(base, list, m, cfg.allowVoltDiff) && Obedient(cfg, run, k)
    ensures NearsAt(Marks(base, list, m, {}, run), k)
  {
    if k + 1 < |run| {
      assert Obeys(run[k], run[k + 1]) && IsStep(cfg, run[k]);
      StepNears(cfg, rbmsNum, base, list, m, run[k], run[k + 1]);
    }
  }

  lemma MarksStay(cfg: Config, rbmsNum: uint16, base: seq<Cluster>, list: seq<nat>, m: nat, b: nat, run: seq<Step>,
                  k: nat)
    requires IsSelection(cfg, rbmsNum, base, list) && InRange(base, list) && m < |base|
    requires b in list && AtLimit(base, m, cfg.allowVoltDiff, b) && Obedient(cfg, run, k)
    ensures StaysAt(Marks(base, list, m, {b}, run), k)
  {
    if k < |run| {
      StepNotRun(cfg, rbmsNum, base, list, m, b, run[k]);
    }
    if k + 1 < |run| {
      assert Obeys(run[k], run[k + 1]) && IsStep(cfg, run[k]);
      StepStays(cfg, rbmsNum, base, list, m, b, run[k], run[k + 1]);
    }
  }

  /** Without clusters at the limit the calls lead to Run. */
  lemma EndsInRun(cfg: Config, rbmsNum: uint16, base: seq<Cluster>, list: seq<nat>, m: nat, run: seq<Step>, n: nat)
    returns (j: nat)
    requires IsSelection(cfg, rbmsNum, base, list) && InRange(base, list) && m < |base|
    requires NoneAtLimit(base, list, m, cfg.allowVoltDiff) && Obedient(cfg, run, n) && n < |run|
    requires MarkOf(base, list, m, {}, run[n]).on && n + MarkOf(base, list, m, {}, run[n]).left + 1 < |run|
    ensures n <= j < |run| && run[j].post.state == Run
  {
    var marks := Marks(base, list, m, {}, run);
    forall k: nat | n <= k ensures NearsAt(marks, k) {
      MarksNear(cfg, rbmsNum, base, list, m, run, k);
    }
    j := NearsToTheEnd(marks, n);
    assert marks[j] == MarkOf(base, list, m, {}, run[j]);
  }

  /** With a cluster at the limit no call enters Run. */
  lemma NeverInRun(cfg: Config, rbmsNum: uint16, base: seq<Cluster>, list: seq<nat>, m: nat, b: nat, run: seq<Step>,
                   n: nat, j: nat)
    requires IsSelection(cfg, rbmsNum, base, list) && InRange(base, list) && m < |base|
    requires b in list && AtLimit(base, m, cfg.allowVoltDiff, b) && Obedient(cfg, run, n) && n <= j < |run|
    requires MarkOf(base, list, m, {b}, run[n]).on
    ensures run[j].post.state != Run
  {
    var marks := Marks(base, list, m, {b}, run);
    forall k: nat | n <= k ensures StaysAt(marks, k) {
      MarksStay(cfg, rbmsNum, base, list, m, b, run, k);
    }
    StaysForEver(marks, n, j);
    assert marks[j] == MarkOf(base, list, m, {b}, run[j]);
  }

  /** At the start only the master is closed. */
  lemma StartOfEpisode(base: seq<Cluster>, list: seq<nat>, m: nat, c: Ctrl)
    requires InRange(base, list) && Distinct(list) && m in list && c.state == MasterGridOn
    requires Closes(base, list, m, {m}, c)
    ensures ClosedOf(c.clusters) == {m} && InEpisode(base, list, m, c) && StepsLeft(list, c) == 2 * |list| - 1
  {
    ClosedIsKnown(base, list, {m}, c.clusters);
    SizeOfDistinct(list);
    assert m in Members(list) && Members(list) == (Members(list) - {m}) + {m};
  }

  /** An obedient episode of enough calls enters Run exactly when no selected cluster is exactly the limit away from the
      master; otherwise no call of it does, however many there are. */
  lemma EpisodeReachesRunIff(cfg: Config, run: seq<Step>, i: nat)
    requires IsObedientEpisode(cfg, run, i) && i + 2 * run[i].post.validCnt + 3 <= |run|
    ensures var base, list := run[i].pre.clusters, run[i].post.valid[..run[i].post.validCnt];
      var m := run[i + 1].post.master;
      && 0 <= m < |base| && InRange(base, list) && m in list
      && (NoneAtLimit(base, list, m, cfg.allowVoltDiff) <==> exists j :: i < j < |run| && run[j].post.state == Run)
  {
    var base, list := run[i].pre.clusters, run[i].post.valid[..run[i].post.validCnt];
    var rbmsNum := run[i].inp.rbmsNum;
    var m := EpisodeStarts(cfg, run, i);
    StartOfEpisode(base, list, m, run[i + 2].pre);
    if NoneAtLimit(base, list, m, cfg.allowVoltDiff) {
      var j := EndsInRun(cfg, rbmsNum, base, list, m, run, i + 2);
    } else {
      var b :| b in list && b != m && AtLimit(base, m, cfg.allowVoltDiff, b);
      forall j | i < j < |run| ensures run[j].post.state != Run {
        if j >= i + 2 {
          NeverInRun(cfg, rbmsNum, base, list, m, b, run, i + 2, j);
        }
      }
    }
  }

  /** The run of two racks exactly the limit apart is such an episode from its third call on. */
  lemma StallingRunObeys(cfg: Config, v: uint16, w: uint16)
    requires cfg.minOnline <= 2 && w == v + cfg.allowVoltDiff
    ensures IsObedientEpisode(cfg, StallingRun(v, w), 2)
  {
    var run := StallingRun(v, w);
    LimitDifferenceHappens(cfg, v, w);
    NothingChanges(run[2].post.clusters);
    assert Obeys(run[2], run[3]);
    assert run[4].pre.clusters == Obeyed(run[3].post.clusters, [SwitchOn(0)]);
    assert Obeys(run[3], run[4]);
  }
}
