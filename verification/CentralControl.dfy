/** The central controller itself: its file-scope variables as fields, one method per arm of the
    switch, and a ghost log of all calls made so far. */
module CentralControl {
  import opened MachineInts
  import opened ClusterSelection
  import opened CentralSpec
  import opened CentralRuns

  /** What a rack reports in one synchronisation. */
  datatype Report = Report(online: bool, fault: bool, voltage: uint16, sysOperSt: uint16)

  /** A contactor counts as closed when both low bits of the operating state are set. */
  function Reported(c: Cluster, r: Report): Cluster {
    c.(online := r.online, fault := r.fault, voltage := r.voltage, contactorOn := r.sysOperSt % 4 == 3)
  }

  lemma CallIsLogged(cfg: Config, log: seq<Step>, s: Step)
    requires IsRun(cfg, log) && IsStep(cfg, s) && Inv(cfg, s.pre)
    requires if log == [] then s.pre.state == Init else Environment(log[|log| - 1].post, s.pre)
    ensures IsRun(cfg, log + [s]) && Inv(cfg, s.post) && Environment(s.post, s.post)
  {
    NextKeepsInv(cfg, s.pre, s.inp, s.post, s.cmds);
    RunExtends(cfg, log, s);
  }

  class Controller {
    const cfg: Config
    const clusters: array<Cluster>
    const validList: array<nat>
    var state: StackState
    var stateTimer: uint32
    var masterIdx: int
    var validCnt: uint8
    var pendingCluster: uint8
    ghost var log: seq<Step>

    ghost function View(): Ctrl
      reads this, clusters, validList
    {
      Ctrl(state, clusters[..], stateTimer, masterIdx, validList[..], validCnt, pendingCluster)
    }

    /** The log is a run of the machine, and nothing but rack reports happened since its last call. */
    ghost predicate Valid()
      reads this, clusters, validList
    {
      && clusters.Length == MAX_CLUSTER_NUM && validList.Length == MAX_CLUSTER_NUM
      && Inv(cfg, View())
      && IsRun(cfg, log)
      && if log == [] then state == Init else Environment(log[|log| - 1].post, View())
    }

    constructor (cfg: Config)
      ensures Valid() && this.cfg == cfg && log == []
      ensures state == Init && stateTimer == 0 && masterIdx == -1 && validCnt == 0 && pendingCluster == NO_PENDING
      ensures forall i :: 0 <= i < MAX_CLUSTER_NUM ==>
        clusters[i] == Cluster(false, false, false, 0, false, false) && validList[i] == 0
      ensures fresh(clusters) && fresh(validList)
    {
      this.cfg := cfg;
      clusters := new Cluster[MAX_CLUSTER_NUM](_ => Cluster(false, false, false, 0, false, false));
      validList := new nat[MAX_CLUSTER_NUM](_ => 0);
      state := Init;
      stateTimer, masterIdx, validCnt, pendingCluster := 0, -1, 0, NO_PENDING;
      log := [];
    }

    /** The reported values of the first racks. */
    method TakeReports(reports: seq<Report>)
      requires |reports| <= clusters.Length
      modifies clusters
      ensures forall i :: 0 <= i < |reports| ==> clusters[i] == Reported(old(clusters[i]), reports[i])
      ensures forall i :: |reports| <= i < clusters.Length ==> clusters[i] == old(clusters[i])
    {
      for i := 0 to |reports|
        invariant forall k :: 0 <= k < i ==> clusters[k] == Reported(old(clusters[k]), reports[k])
        invariant forall k :: i <= k < clusters.Length ==> clusters[k] == old(clusters[k])
      {
        clusters[i] := Reported(clusters[i], reports[i]);
      }
    }

    /** The racks report anew; the controller's own `selected` marks stay, and so do the `ready` flags. */
    method SyncClustersFromRtdb(reports: seq<Report>)
      requires Valid() && |reports| <= MAX_CLUSTER_NUM
      modifies clusters
      ensures Valid() && Environment(old(View()), View())
      ensures forall i :: 0 <= i < |reports| ==>
        var c, r := clusters[i], reports[i];
        && c.online == r.online && c.fault == r.fault && c.voltage == r.voltage
        && (c.contactorOn <==> r.sysOperSt % 4 == 3)
        && c.ready == old(clusters[i].ready) && c.selected == old(clusters[i].selected)
      ensures forall i :: |reports| <= i < MAX_CLUSTER_NUM ==> clusters[i] == old(clusters[i])
    {
      ghost var before := View();
      TakeReports(reports);
      EnvironmentKeepsInv(cfg, before, View());
    }

    /** `ready` is read by the candidate scan and written by the racks' side only. */
    method SetReady(i: nat, ready: bool)
      requires Valid() && i < MAX_CLUSTER_NUM
      modifies clusters
      ensures Valid() && Environment(old(View()), View())
      ensures clusters[..] == old(clusters[..])[i := old(clusters[i]).(ready := ready)]
    {
      ghost var before := View();
      clusters[i] := clusters[i].(ready := ready);
      EnvironmentKeepsInv(cfg, before, View());
    }

    method BbmsSelfCheckOk(inp: Input) returns (ok: bool)
      requires clusters.Length == MAX_CLUSTER_NUM && inp.rbmsNum <= MAX_CLUSTER_NUM
      ensures ok <==> SelfCheckPasses(clusters[..], inp)
    {
      for i := 0 to inp.rbmsNum
        invariant forall k :: 0 <= k < i ==> clusters[k].online && !clusters[k].fault
      {
        if !clusters[i].online || clusters[i].fault {
          assert !(clusters[..][i].online && !clusters[..][i].fault);
          return false;
        }
      }
      if inp.bankLevel1 {
        return false;
      }
      // The C code scans the faults a second time here, with nothing left to find.
      return true;
    }

    method StandbyArm(inp: Input)
      requires clusters.Length == MAX_CLUSTER_NUM && validList.Length == MAX_CLUSTER_NUM
      requires state == Standby
      modifies this`state, this`validCnt, validList
      ensures StandbyNext(cfg, old(View()), inp, View())
    {
      var ok, list := BuildValidClusterSet(clusters, inp.rbmsNum, cfg);
      if ok {
        for i := 0 to |list|
          invariant validList[..i] == list[..i] && validList[i..] == old(validList[..])[i..]
        {
          validList[i] := list[i];
        }
        validCnt := |list|;
        assert validList[..validCnt] == list && validList[validCnt..] == old(validList[..])[validCnt..];
        state := Prepare;
      } else {
        state := SelfCheck;
      }
    }

    method MarkSelected()
      requires clusters.Length == MAX_CLUSTER_NUM && validList.Length == MAX_CLUSTER_NUM
      requires validCnt <= MAX_CLUSTER_NUM && InRange(clusters[..], validList[..validCnt])
      modifies clusters
      ensures clusters[..] == Selected(old(clusters[..]), validList[..validCnt])
    {
      for i := 0 to MAX_CLUSTER_NUM
        invariant forall k :: 0 <= k < MAX_CLUSTER_NUM ==>
          clusters[k] == if k < i then old(clusters[k]).(selected := false) else old(clusters[k])
      {
        clusters[i] := clusters[i].(selected := false);
      }
      ghost var list := validList[..validCnt];
      for i := 0 to validCnt
        invariant forall k :: 0 <= k < MAX_CLUSTER_NUM ==>
          clusters[k] == old(clusters[k]).(selected := k in list[..i])
      {
        assert list[..i + 1] == list[..i] + [list[i]];
        clusters[validList[i]] := clusters[validList[i]].(selected := true);
      }
      assert list[..validCnt] == list;
    }

    method PrepareArm(inp: Input) returns (cmds: seq<Command>)
      requires clusters.Length == MAX_CLUSTER_NUM && validList.Length == MAX_CLUSTER_NUM
      requires state == Prepare && Inv(cfg, View())
      modifies this`state, this`masterIdx, this`stateTimer, this`pendingCluster, clusters
      ensures PrepareNext(old(View()), inp, View(), cmds)
    {
      MarkSelected();
      masterIdx := GetBmsMasterCluster(clusters, validList[..validCnt]);
      if masterIdx < 0 {
        state := Init;
        return [];
      }
      cmds := [SwitchOn(masterIdx)];
      stateTimer := inp.now;
      pendingCluster := NO_PENDING;
      state := MasterGridOn;
    }

    method MasterGridOnArm(now: uint32)
      requires clusters.Length == MAX_CLUSTER_NUM && validList.Length == MAX_CLUSTER_NUM
      requires state == MasterGridOn && Inv(cfg, View())
      modifies this`state, this`stateTimer
      ensures View() == MasterGridOnStep(cfg, old(View()), now)
    {
      if !clusters[masterIdx].online || clusters[masterIdx].fault {
        state := PowerOff;
        return;
      }
      if clusters[masterIdx].contactorOn {
        stateTimer := now;
        state := GridOn;
      } else if Elapsed(now, stateTimer) > cfg.powerOnTimeoutMs {
        state := PowerOff;
      }
    }

    method PendingArm(now: uint32)
      requires clusters.Length == MAX_CLUSTER_NUM && validList.Length == MAX_CLUSTER_NUM
      requires state == GridOn && pendingCluster != NO_PENDING && Inv(cfg, View())
      modifies this`state, this`validCnt, this`pendingCluster, clusters
      ensures View() == PendingStep(cfg, old(View()), now)
    {
      if clusters[pendingCluster].contactorOn {
        pendingCluster := NO_PENDING;
      } else if Elapsed(now, stateTimer) > cfg.powerOnTimeoutMs {
        if clusters[pendingCluster].selected {
          validCnt := (validCnt - 1) % U8_SPAN;
          clusters[pendingCluster] := clusters[pendingCluster].(selected := false);
        }
        if validCnt < cfg.minOnline {
          state := PowerOff;
          return;
        }
        pendingCluster := NO_PENDING;
      }
    }

    method IdleArm(now: uint32) returns (cmds: seq<Command>)
      requires clusters.Length == MAX_CLUSTER_NUM && validList.Length == MAX_CLUSTER_NUM
      requires state == GridOn && pendingCluster == NO_PENDING && Inv(cfg, View())
      modifies this`state, this`stateTimer, this`pendingCluster
      ensures IdleNext(cfg, old(View()), now, View(), cmds)
    {
      cmds := [];
      ghost var cs := clusters[..];
      for i := 0 to MAX_CLUSTER_NUM
        invariant pendingCluster == NO_PENDING && stateTimer == old(stateTimer) && cmds == []
        invariant forall k: nat :: k < i ==> !IsTarget(cs, masterIdx, cfg.allowVoltDiff, k)
      {
        if !clusters[i].selected { continue; }
        if i == masterIdx { continue; }
        if clusters[i].fault { continue; }
        if !clusters[i].contactorOn {
          var dv := clusters[i].voltage - clusters[masterIdx].voltage;
          if (if dv < 0 then -dv else dv) < cfg.allowVoltDiff {
            cmds := [SwitchOn(i)];
            pendingCluster := i;
            stateTimer := now;
            assert IsTarget(cs, masterIdx, cfg.allowVoltDiff, i);
            break;
          }
        }
      }

      var allOn := true;
      for i := 0 to MAX_CLUSTER_NUM
        invariant allOn && forall k :: 0 <= k < i ==> cs[k].selected ==> cs[k].contactorOn
      {
        if clusters[i].selected && !clusters[i].contactorOn {
          allOn := false;
          assert !AllSelectedOn(cs) by { assert cs[i].selected && !cs[i].contactorOn; }
          break;
        }
      }
      if allOn && pendingCluster == NO_PENDING {
        state := Run;
      }
    }

    /** Sends a switch-off to every cluster that `which` picks, in ascending order. */
    method SwitchOffWhere(which: Cluster -> bool) returns (cmds: seq<Command>)
      ensures cmds == OffCommands(clusters[..], which)
    {
      cmds := [];
      ghost var cs := clusters[..];
      for i := 0 to clusters.Length
        invariant cmds == OffCommands(cs[..i], which)
      {
        assert cs[..i + 1][..i] == cs[..i];
        if which(clusters[i]) {
          cmds := cmds + [SwitchOff(i)];
        }
      }
      assert cs[..|cs|] == cs;
    }

    method CountClosedSelected() returns (onCnt: uint16)
      requires clusters.Length == MAX_CLUSTER_NUM
      ensures onCnt == CountSelectedOn(clusters[..])
    {
      onCnt := 0;
      ghost var cs := clusters[..];
      for i := 0 to MAX_CLUSTER_NUM
        invariant onCnt <= i && onCnt == CountSelectedOn(cs[..i])
      {
        assert cs[..i + 1][..i] == cs[..i];
        if clusters[i].selected && clusters[i].contactorOn {
          onCnt := onCnt + 1;
        }
      }
      assert cs[..MAX_CLUSTER_NUM] == cs;
    }

    /** The running check on the voltages of the closed clusters, minimum and maximum as initialised in C. */
    method SpreadExceeded() returns (trip: bool)
      requires clusters.Length == MAX_CLUSTER_NUM
      ensures trip <==> SpreadTrips(clusters[..], cfg.allowVoltDiff)
    {
      var vMax, vMin := -10000, 10000;
      ghost var cs := clusters[..];
      ghost var top, bottom := -1, -1;
      for i := 0 to MAX_CLUSTER_NUM
        invariant top == -1 ==> vMax == -10000 && vMin == 10000
        invariant top != -1 ==> 0 <= top < i && cs[top].selected && cs[top].contactorOn && vMax == cs[top].voltage
        invariant bottom == -1 ==> vMin == 10000
        invariant bottom != -1 ==>
                    0 <= bottom < i && cs[bottom].selected && cs[bottom].contactorOn && vMin == cs[bottom].voltage
        invariant vMin <= 10000
        invariant forall k :: 0 <= k < i && cs[k].selected && cs[k].contactorOn ==> vMin <= cs[k].voltage <= vMax
      {
        if clusters[i].selected && clusters[i].contactorOn {
          if clusters[i].voltage > vMax { vMax := clusters[i].voltage; top := i; }
          if clusters[i].voltage < vMin { vMin := clusters[i].voltage; bottom := i; }
        }
      }
      trip := vMax - vMin > cfg.allowVoltDiff;
    }

    method RunArm() returns (cmds: seq<Command>)
      requires clusters.Length == MAX_CLUSTER_NUM && validList.Length == MAX_CLUSTER_NUM
      requires state == Run
      modifies this`state
      ensures RunNext(cfg, old(View()), View(), cmds)
    {
      cmds := SwitchOffWhere(SelectedFaulty());
      var onCnt := CountClosedSelected();
      if onCnt < cfg.minOnline {
        state := PowerOff;
        return;
      }
      var stray := SwitchOffWhere(Stray());
      cmds := cmds + stray;
      var trip := SpreadExceeded();
      if trip {
        state := PowerOff;
      }
    }

    method PowerOffArm(now: uint32) returns (cmds: seq<Command>)
      requires clusters.Length == MAX_CLUSTER_NUM && validList.Length == MAX_CLUSTER_NUM
      requires state == PowerOff
      modifies this`state, this`stateTimer
      ensures View() == PowerOffStep(cfg, old(View()), now)
      ensures cmds == OffCommands(clusters[..], Closed())
    {
      cmds := [];
      ghost var cs := clusters[..];
      var onCnt := 0;
      for i := 0 to MAX_CLUSTER_NUM
        invariant 0 <= onCnt <= i
        invariant onCnt == 0 <==> forall k :: 0 <= k < i ==> !cs[k].contactorOn
      {
        if clusters[i].contactorOn {
          onCnt := onCnt + 1;
        }
      }
      for i := 0 to MAX_CLUSTER_NUM
        invariant state == PowerOff && cmds == OffCommands(cs[..i], Closed())
        invariant stateTimer == if AllOpen(cs[..i]) then old(stateTimer) else now
      {
        assert cs[..i + 1] == cs[..i] + [cs[i]];
        assert AllOpen(cs[..i + 1]) <==> AllOpen(cs[..i]) && !cs[i].contactorOn by {
          assert cs[..i + 1][i] == cs[i];
          assert forall k :: 0 <= k < i ==> cs[..i][k] == cs[..i + 1][k];
        }
        if clusters[i].contactorOn {
          cmds := cmds + [SwitchOff(i)];
          stateTimer := now;
        }
      }
      assert cs[..MAX_CLUSTER_NUM] == cs;
      assert onCnt == 0 <==> AllOpen(cs);
      state := if onCnt == 0 then Standby
               else if Elapsed(now, stateTimer) > cfg.powerOffTimeoutMs then Fault
               else PowerOff;
    }

    method FaultArm() returns (cmds: seq<Command>)
      requires clusters.Length == MAX_CLUSTER_NUM && validList.Length == MAX_CLUSTER_NUM
      requires state == Fault
      modifies this`state
      ensures View() == FaultStep(old(View())) && cmds == OffCommands(clusters[..], Any())
    {
      cmds := SwitchOffWhere(Any());
      ghost var cs := clusters[..];
      var allOffCnt := 0;
      for i := 0 to MAX_CLUSTER_NUM
        invariant 0 <= allOffCnt <= i
        invariant allOffCnt == i <==> forall k :: 0 <= k < i ==> !cs[k].contactorOn
      {
        if !clusters[i].contactorOn {
          allOffCnt := allOffCnt + 1;
        }
      }
      if allOffCnt == MAX_CLUSTER_NUM {
        state := Standby;
      }
    }

    method Dispatch(inp: Input) returns (cmds: seq<Command>)
      requires clusters.Length == MAX_CLUSTER_NUM && validList.Length == MAX_CLUSTER_NUM
      requires Inv(cfg, View()) && inp.rbmsNum <= MAX_CLUSTER_NUM
      modifies this`state, this`masterIdx, this`stateTimer, this`validCnt, this`pendingCluster, clusters, validList
      ensures Next(cfg, old(View()), inp, View(), cmds)
    {
      cmds := [];
      match state {
        case Init => state := SelfCheck;
        case SelfCheck =>
          var ok := BbmsSelfCheckOk(inp);
          state := if ok then Standby else Fault;
        case Standby => StandbyArm(inp);
        case Prepare => cmds := PrepareArm(inp);
        case MasterGridOn => MasterGridOnArm(inp.now);
        case GridOn =>
          if pendingCluster != NO_PENDING {
            PendingArm(inp.now);
          } else {
            cmds := IdleArm(inp.now);
          }
        case Run => cmds := RunArm();
        case PowerOff => cmds := PowerOffArm(inp.now);
        case Fault => cmds := FaultArm();
      }
    }

    /** One call of the controller; the log grows by exactly this call. */
    method BmsCentralRunControl(inp: Input) returns (cmds: seq<Command>)
      requires Valid() && inp.rbmsNum <= MAX_CLUSTER_NUM
      modifies this, clusters, validList
      ensures Valid()
      ensures Next(cfg, old(View()), inp, View(), cmds)
      ensures log == old(log) + [Step(old(View()), inp, View(), cmds)]
    {
      cmds := Dispatch(inp);
      ghost var s := Step(old(View()), inp, View(), cmds);
      CallIsLogged(cfg, log, s);
      log := log + [s];
    }
  }
}
