/** What each call of the central machine does, told in the fields of the clusters it found. */
module CentralLaws {
  import opened MachineInts
  import opened ClusterSelection
  import opened CentralSpec
  import opened CentralRuns

  // ---------------------------------------------------------------- switching off

  lemma {:induction false} OffCommandsIff(cs: seq<Cluster>, which: Cluster -> bool, c: Command)
    ensures c in OffCommands(cs, which) <==> c.SwitchOff? && c.id < |cs| && which(cs[c.id])
  {
    if cs != [] {
      OffCommandsIff(cs[..|cs| - 1], which, c);
    }
  }

  lemma {:induction false} OffCommandsClimb(cs: seq<Cluster>, which: Cluster -> bool)
    ensures forall a :: 0 <= a < |OffCommands(cs, which)| ==> OffCommands(cs, which)[a].id < |cs|
    ensures forall a, b :: 0 <= a < b < |OffCommands(cs, which)| ==>
              OffCommands(cs, which)[a].id < OffCommands(cs, which)[b].id
  {
    if cs != [] {
      OffCommandsClimb(cs[..|cs| - 1], which);
    }
  }

  ghost predicate Climbing(cmds: seq<Command>) {
    forall a, b :: 0 <= a < b < |cmds| ==> cmds[a].id < cmds[b].id
  }

  /** In Fault every cluster is asked to open, once, in ascending order, and nothing else is sent. */
  lemma FaultOpensAll(cfg: Config, s: Step)
    requires IsStep(cfg, s) && s.pre.state == Fault
    ensures forall c :: c in s.cmds <==> c.SwitchOff? && c.id < 20
    ensures Climbing(s.cmds)
  {
    forall c ensures c in s.cmds <==> c.SwitchOff? && c.id < 20 {
      OffCommandsIff(s.pre.clusters, Any(), c);
    }
    OffCommandsClimb(s.pre.clusters, Any());
  }

  /** In PowerOff exactly the clusters with a closed contactor are asked to open. */
  lemma PowerOffOpensClosed(cfg: Config, s: Step)
    requires IsStep(cfg, s) && s.pre.state == PowerOff
    ensures forall c :: c in s.cmds <==> c.SwitchOff? && c.id < 20 && s.pre.clusters[c.id].contactorOn
    ensures Climbing(s.cmds)
  {
    forall c ensures c in s.cmds <==> c.SwitchOff? && c.id < 20 && s.pre.clusters[c.id].contactorOn {
      OffCommandsIff(s.pre.clusters, Closed(), c);
    }
    OffCommandsClimb(s.pre.clusters, Closed());
  }

  /** The selected clusters with a closed contactor. */
  function ClosedSelected(cs: seq<Cluster>): set<nat> {
    set i: nat | i < |cs| && cs[i].selected && cs[i].contactorOn
  }

  lemma LastMayCount(cs: seq<Cluster>, before: set<nat>)
    requires cs != [] && before == ClosedSelected(cs[..|cs| - 1])
    ensures var n := |cs| - 1;
      n !in before && ClosedSelected(cs) == if cs[n].selected && cs[n].contactorOn then before + {n} else before
  {
  }

  lemma {:induction false} CountIsSize(cs: seq<Cluster>)
    ensures CountSelectedOn(cs) == |ClosedSelected(cs)|
  {
    if cs == [] {
      assert ClosedSelected(cs) == {};
    } else {
      CountIsSize(cs[..|cs| - 1]);
      LastMayCount(cs, ClosedSelected(cs[..|cs| - 1]));
    }
  }

  /** Faulty selected clusters first, then the others. */
  ghost predicate SelectedFirst(cs: seq<Cluster>, cmds: seq<Command>) {
    forall a, b :: 0 <= a < b < |cmds| && cmds[a].id < |cs| && cmds[b].id < |cs| ==>
      if cs[cmds[a].id].selected == cs[cmds[b].id].selected then cmds[a].id < cmds[b].id
      else cs[cmds[a].id].selected
  }

  lemma RunCommands(cfg: Config, s: Step, enough: bool)
    requires IsStep(cfg, s) && s.pre.state == Run && (enough <==> CountSelectedOn(s.pre.clusters) >= cfg.minOnline)
    ensures s.cmds == OffCommands(s.pre.clusters, SelectedFaulty())
                      + if enough then OffCommands(s.pre.clusters, Stray()) else []
  {
  }

  /** In Run the selected faulty clusters are asked to open; and, with at least the minimum closed, so are the closed
      ones that are not selected. */
  lemma RunOpensFaultyAndStray(cfg: Config, s: Step)
    requires IsStep(cfg, s) && s.pre.state == Run
    ensures var cs := s.pre.clusters;
      var enough := |set i: nat | i < 20 && cs[i].selected && cs[i].contactorOn| >= cfg.minOnline;
      forall c :: c in s.cmds <==>
        && c.SwitchOff? && c.id < 20
        && if cs[c.id].selected then cs[c.id].fault else cs[c.id].contactorOn && enough
    ensures SelectedFirst(s.pre.clusters, s.cmds)
  {
    var cs := s.pre.clusters;
    var enough := CountSelectedOn(cs) >= cfg.minOnline;
    CountIsSize(cs);
    assert ClosedSelected(cs) == set i: nat | i < 20 && cs[i].selected && cs[i].contactorOn;
    RunCommands(cfg, s, enough);
    forall c ensures c in OffCommands(cs, SelectedFaulty()) <==>
                       c.SwitchOff? && c.id < |cs| && cs[c.id].selected && cs[c.id].fault {
      OffCommandsIff(cs, SelectedFaulty(), c);
    }
    forall c ensures c in OffCommands(cs, Stray()) <==>
                       c.SwitchOff? && c.id < |cs| && !cs[c.id].selected && cs[c.id].contactorOn {
      OffCommandsIff(cs, Stray(), c);
    }
    OffCommandsClimb(cs, SelectedFaulty());
    OffCommandsClimb(cs, Stray());
    TwoParts(cs, OffCommands(cs, SelectedFaulty()), if enough then OffCommands(cs, Stray()) else [], s.cmds);
  }

  lemma TwoParts(cs: seq<Cluster>, first: seq<Command>, second: seq<Command>, cmds: seq<Command>)
    requires cmds == first + second && Climbing(first) && Climbing(second)
    requires forall c :: c in first ==> c.id < |cs| && cs[c.id].selected
    requires forall c :: c in second ==> c.id < |cs| && !cs[c.id].selected
    ensures SelectedFirst(cs, cmds)
  {
    forall a, b | 0 <= a < b < |cmds| && cmds[a].id < |cs| && cmds[b].id < |cs|
      ensures if cs[cmds[a].id].selected == cs[cmds[b].id].selected then cmds[a].id < cmds[b].id
              else cs[cmds[a].id].selected
    {
      assert if a < |first| then cmds[a] in first else cmds[a] in second && cmds[b] in second;
      assert if b < |first| then cmds[b] in first else cmds[b] in second;
    }
  }

  /** No other state switches anything off. */
  lemma OthersOpenNothing(cfg: Config, s: Step, t: nat)
    requires IsStep(cfg, s) && s.pre.state !in {Run, PowerOff, Fault}
    ensures SwitchOff(t) !in s.cmds
  {
  }

  // ---------------------------------------------------------------- moving on

  /** The self-check sends nothing and leads to Fault exactly for an offline or faulty rack among those configured, or
      a level-1 fault of the bank, and to Standby otherwise. */
  lemma SelfCheckDecides(cfg: Config, s: Step)
    requires IsStep(cfg, s) && s.pre.state == SelfCheck
    ensures s.cmds == [] && s.post == s.pre.(state := s.post.state)
    ensures s.post.state == if s.inp.bankLevel1
                               || exists i :: 0 <= i < 20 && i < s.inp.rbmsNum
                                              && (!s.pre.clusters[i].online || s.pre.clusters[i].fault)
                            then Fault else Standby
  {
  }

  /** Prepare marks exactly the stored clusters. */
  lemma PrepareMarks(cfg: Config, s: Step)
    requires IsStep(cfg, s) && s.pre.state == Prepare
    ensures s.pre.validCnt <= 20 && |s.post.clusters| == 20
    ensures forall i :: 0 <= i < 20 ==>
      && s.post.clusters[i].selected == (exists k :: 0 <= k < s.pre.validCnt && s.pre.valid[k] == i)
      && s.post.clusters[i] == s.pre.clusters[i].(selected := s.post.clusters[i].selected)
  {
    var list := s.pre.valid[..s.pre.validCnt];
    forall i | 0 <= i < 20 ensures i in list <==> exists k :: 0 <= k < s.pre.validCnt && s.pre.valid[k] == i {
      if i in list {
        var k :| 0 <= k < |list| && list[k] == i;
        assert s.pre.valid[k] == i;
      }
      if k :| 0 <= k < s.pre.validCnt && s.pre.valid[k] == i {
        assert list[k] == i;
      }
    }
  }

  /** Init leads to SelfCheck; Prepare sends the only switch-on, to the master, and starts the timer, or goes back to
      Init without a master. */
  lemma StartDecides(cfg: Config, s: Step)
    requires IsStep(cfg, s) && s.pre.state in {Init, Prepare}
    ensures s.pre.state == Init ==> s.cmds == [] && s.post == s.pre.(state := SelfCheck)
    ensures s.pre.state == Prepare && s.post.master < 0 ==>
      s.cmds == [] && s.post == s.pre.(state := Init, master := -1, clusters := s.post.clusters)
    ensures s.pre.state == Prepare && s.post.master >= 0 ==>
      && s.cmds == [SwitchOn(s.post.master)]
      && s.post == s.pre.(state := MasterGridOn, master := s.post.master, clusters := s.post.clusters,
                          timer := s.inp.now, pending := 0xFF)
  {
  }

  /** MasterGridOn gives up for a lost or faulty master, or one that takes too long; goes on once it is closed. */
  lemma MasterDecides(cfg: Config, s: Step)
    requires IsStep(cfg, s) && s.pre.state == MasterGridOn
    ensures 0 <= s.pre.master < 20 && s.cmds == []
    ensures var m := s.pre.clusters[s.pre.master];
      var healthy, late := m.online && !m.fault, (s.inp.now - s.pre.timer) % 0x1_0000_0000 > cfg.powerOnTimeoutMs;
      && (healthy && m.contactorOn ==> s.post == s.pre.(state := GridOn, timer := s.inp.now))
      && (!healthy || (!m.contactorOn && late) ==> s.post == s.pre.(state := PowerOff))
      && (healthy && !m.contactorOn && !late ==> s.post == s.pre)
  {
  }

  /** Whenever a run enters GridOn, the master was seen online, fault-free and closed. */
  lemma GridOnNeedsHealthyMaster(cfg: Config, run: seq<Step>, k: nat)
    requires IsRun(cfg, run) && k < |run| && run[k].pre.state != GridOn && run[k].post.state == GridOn
    ensures 0 <= run[k].pre.master < 20 <= |run[k].pre.clusters|
    ensures var m := run[k].pre.clusters[run[k].pre.master]; m.online && !m.fault && m.contactorOn
  {
    assert IsStep(cfg, run[k]);
    if run[k].pre.state == MasterGridOn {
      MasterDecides(cfg, run[k]);
    }
  }

  /** GridOn with a cluster pending: seen closed it is done; when it takes too long it is dropped, and with less than
      the minimum left the machine gives up. */
  lemma PendingDecides(cfg: Config, s: Step)
    requires IsStep(cfg, s) && Inv(cfg, s.pre) && s.pre.state == GridOn && s.pre.pending != 0xFF
    ensures s.pre.pending < 20 && s.cmds == []
    ensures var p := s.pre.clusters[s.pre.pending];
      var late := (s.inp.now - s.pre.timer) % 0x1_0000_0000 > cfg.powerOnTimeoutMs;
      && (p.contactorOn ==> s.post == s.pre.(pending := 0xFF))
      && (!p.contactorOn && !late ==> s.post == s.pre)
      && (!p.contactorOn && late ==>
            var left := s.pre.validCnt - 1;
            && left >= 1 && |s.post.clusters| == 20
            && s.post.clusters == s.pre.clusters[s.pre.pending := p.(selected := false)]
            && s.post == (if left < cfg.minOnline then s.pre.(state := PowerOff) else s.pre.(pending := 0xFF))
                         .(validCnt := left, clusters := s.post.clusters))
  {
    PendingKeepsInv(cfg, s.pre, s.inp.now);
  }

  lemma OnlyLowest(cs: seq<Cluster>, m: nat, diff: uint8, x: nat, t: nat)
    requires |cs| == 20 && m < 20 && IsTarget(cs, m, diff, x) && forall i: nat :: i < x ==> !IsTarget(cs, m, diff, i)
    ensures t == x <==>
      && t < 20 && t != m && cs[t].selected && !cs[t].fault && !cs[t].contactorOn
      && cs[t].voltage - cs[m].voltage < diff && cs[m].voltage - cs[t].voltage < diff
      && forall i :: 0 <= i < t && i != m && cs[i].selected && !cs[i].fault && !cs[i].contactorOn ==>
           cs[i].voltage - cs[m].voltage >= diff || cs[m].voltage - cs[i].voltage >= diff
  {
    if t == x {
      forall i | 0 <= i < t && i != m && cs[i].selected && !cs[i].fault && !cs[i].contactorOn
        ensures cs[i].voltage - cs[m].voltage >= diff || cs[m].voltage - cs[i].voltage >= diff
      {
        assert !IsTarget(cs, m, diff, i);
      }
    } else if t < x {
      assert !IsTarget(cs, m, diff, t);
    } else {
      assert cs[x].selected && !cs[x].fault;
    }
  }

  /** GridOn with nothing pending: the lowest cluster that is selected, not the master, fault-free, open and strictly
      within the limit of the master is asked to close; without one, Run is entered once no selected cluster is open. */
  lemma IdleClosesLowest(cfg: Config, s: Step)
    requires IsStep(cfg, s) && s.pre.state == GridOn && s.pre.pending == 0xFF
    ensures 0 <= s.pre.master < 20
    ensures var cs, m, v, diff := s.pre.clusters, s.pre.master, s.pre.clusters[s.pre.master].voltage, cfg.allowVoltDiff;
      && (forall t: nat :: Switches(s, t) <==>
            && t < 20 && t != m && cs[t].selected && !cs[t].fault && !cs[t].contactorOn
            && cs[t].voltage - v < diff && v - cs[t].voltage < diff
            && forall i :: 0 <= i < t && i != m && cs[i].selected && !cs[i].fault && !cs[i].contactorOn ==>
                 cs[i].voltage - v >= diff || v - cs[i].voltage >= diff)
      && (forall t: nat :: Switches(s, t) ==>
            s.cmds == [SwitchOn(t)] && s.post == s.pre.(pending := t, timer := s.inp.now))
      && (!SwitchesSome(s) ==>
            && s.cmds == []
            && s.post == if exists i :: 0 <= i < 20 && cs[i].selected && !cs[i].contactorOn then s.pre
                         else s.pre.(state := Run))
  {
    var cs, m, diff := s.pre.clusters, s.pre.master, cfg.allowVoltDiff;
    if x: nat :| IsTarget(cs, m, diff, x) && s.cmds == [SwitchOn(x)]
                 && forall i: nat :: i < x ==> !IsTarget(cs, m, diff, i) {
      assert Switches(s, x);
      forall t: nat ensures Switches(s, t) <==> t == x {
      }
      forall t: nat { OnlyLowest(cs, m, diff, x, t); }
    } else {
      assert s.cmds == [];
      forall t: nat ensures !Switches(s, t) && !IsTarget(cs, m, diff, t) {
      }
    }
  }

  lemma SpreadInFields(cs: seq<Cluster>, diff: uint8)
    requires |cs| == 20
    ensures SpreadTrips(cs, diff) <==>
      exists i :: 0 <= i < 20 && cs[i].selected && cs[i].contactorOn
        && (cs[i].voltage > 10000 + diff
            || exists j :: 0 <= j < 20 && cs[j].selected && cs[j].contactorOn && cs[i].voltage > cs[j].voltage + diff)
  {
  }

  /** Run ends, for PowerOff, when less than the minimum of the selected clusters is closed, when two closed ones differ
      by more than the limit, or when one is more than the limit above 10000; it changes nothing but the state. */
  lemma RunDecides(cfg: Config, s: Step)
    requires IsStep(cfg, s) && s.pre.state == Run
    ensures var cs, diff := s.pre.clusters, cfg.allowVoltDiff;
      s.post == s.pre.(state :=
        if |set i: nat | i < 20 && cs[i].selected && cs[i].contactorOn| < cfg.minOnline
           || exists i :: 0 <= i < 20 && cs[i].selected && cs[i].contactorOn
                && (cs[i].voltage > 10000 + diff
                    || exists j :: 0 <= j < 20 && cs[j].selected && cs[j].contactorOn
                         && cs[i].voltage > cs[j].voltage + diff)
        then PowerOff else Run)
  {
    var cs := s.pre.clusters;
    CountIsSize(cs);
    assert ClosedSelected(cs) == set i: nat | i < 20 && cs[i].selected && cs[i].contactorOn;
    SpreadInFields(cs, cfg.allowVoltDiff);
  }

  /** PowerOff and Fault end, for Standby, exactly when every contactor is open; until then PowerOff restarts its
      timer. */
  lemma OpeningDecides(cfg: Config, s: Step)
    requires IsStep(cfg, s) && s.pre.state in {PowerOff, Fault}
    ensures s.post == if forall i :: 0 <= i < 20 ==> !s.pre.clusters[i].contactorOn then s.pre.(state := Standby)
                      else if s.pre.state == PowerOff then s.pre.(timer := s.inp.now) else s.pre
  {
    assert Elapsed(s.inp.now, s.inp.now) == 0;
    assert AllOpen(s.pre.clusters) <==> forall i :: 0 <= i < 20 ==> !s.pre.clusters[i].contactorOn;
  }

  /** Standby falls back to SelfCheck exactly when no non-empty set of healthy configured racks within the limit has the
      minimum size. */
  lemma StandbyDecides(cfg: Config, s: Step)
    requires IsStep(cfg, s) && s.pre.state == Standby
    ensures s.cmds == [] && s.post == s.pre.(state := s.post.state, valid := s.post.valid, validCnt := s.post.validCnt)
    ensures s.post.state in {Prepare, SelfCheck}
    ensures var cs := s.pre.clusters;
      s.post.state == SelfCheck <==>
        forall group: set<nat> ::
          && (forall i :: i in group ==> i < 20 && i < s.inp.rbmsNum && cs[i].online && cs[i].ready && !cs[i].fault)
          && (forall i, j :: i in group && j in group ==> cs[i].voltage <= cs[j].voltage + cfg.allowVoltDiff)
          ==> |group| < cfg.minOnline || group == {}
    ensures s.post.state == SelfCheck ==> s.post == s.pre.(state := SelfCheck)
  {
    FailureInFields(s.pre.clusters, s.inp.rbmsNum, cfg);
    if s.post.state == Prepare {
      SelectionIsDecided(s.pre.clusters, s.inp.rbmsNum, cfg, s.post.valid[..s.post.validCnt]);
    }
  }

  // ---------------------------------------------------------------- nothing is left to chance

  lemma StandbyIsDetermined(cfg: Config, c: Ctrl, inp: Input, d: Ctrl, e: Ctrl)
    requires Shaped(c) && StandbyNext(cfg, c, inp, d) && StandbyNext(cfg, c, inp, e)
    ensures d == e
  {
    if d.state == Prepare {
      SelectionIsDecided(c.clusters, inp.rbmsNum, cfg, d.valid[..d.validCnt]);
    }
    if e.state == Prepare {
      SelectionIsDecided(c.clusters, inp.rbmsNum, cfg, e.valid[..e.validCnt]);
    }
    if d.state == Prepare && e.state == Prepare {
      SelectionIsUnique(c.clusters, inp.rbmsNum, cfg, d.valid[..d.validCnt], e.valid[..e.validCnt]);
      assert |d.valid[..d.validCnt]| == d.validCnt;
      assert d.valid == d.valid[..d.validCnt] + d.valid[d.validCnt..];
      assert e.valid == e.valid[..e.validCnt] + e.valid[e.validCnt..];
    }
  }

  lemma PrepareIsDetermined(c: Ctrl, inp: Input, d: Ctrl, cmds: seq<Command>, e: Ctrl, cmds': seq<Command>)
    requires Shaped(c) && PrepareNext(c, inp, d, cmds) && PrepareNext(c, inp, e, cmds')
    ensures d == e && cmds == cmds'
  {
    var list := c.valid[..c.validCnt];
    MasterIsUnique(Selected(c.clusters, list), list, d.master, e.master);
  }

  lemma IdleIsDetermined(cfg: Config, c: Ctrl, now: uint32, d: Ctrl, cmds: seq<Command>, e: Ctrl, cmds': seq<Command>)
    requires Shaped(c) && 0 <= c.master < |c.clusters|
    requires IdleNext(cfg, c, now, d, cmds) && IdleNext(cfg, c, now, e, cmds')
    ensures d == e && cmds == cmds'
  {
  }

  /** What a call found and read determines what it leaves and sends, down to the order of the stored list. */
  lemma StepIsDetermined(cfg: Config, s: Step, s': Step)
    requires IsStep(cfg, s) && IsStep(cfg, s') && s.pre == s'.pre && s.inp == s'.inp
    ensures s == s'
  {
    match s.pre.state
    case Standby => StandbyIsDetermined(cfg, s.pre, s.inp, s.post, s'.post);
    case Prepare => PrepareIsDetermined(s.pre, s.inp, s.post, s.cmds, s'.post, s'.cmds);
    case GridOn =>
      if s.pre.pending == NO_PENDING {
        IdleIsDetermined(cfg, s.pre, s.inp.now, s.post, s.cmds, s'.post, s'.cmds);
      }
    case _ =>
  }
}
