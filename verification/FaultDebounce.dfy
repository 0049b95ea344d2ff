/** Trigger and recover timers of one fault, and what they decide about its sample history. */
module FaultDebounce {
  import opened MachineInts

  datatype Condition = GreaterThan | LessThan | Equal | NotEqual | GreaterEqual | LessEqual | OtherCondition

  datatype Handle = NoHandle | AlarmOnly | Derating | Shutdown

  datatype FaultConfig = FaultConfig(
    enabled: bool, handle: Handle, triggerThreshold: real, recoverThreshold: real,
    triggerTimeMs: uint32, recoverTimeMs: uint32, condition: Condition, deratingRatio: uint8)

  datatype FaultState = FaultState(
    isFault: bool, faultStart: uint32, recoverStart: uint32, triggerActive: bool, recoverActive: bool)

  /** A value of the data source and the tick counter at which it was looked at. */
  datatype Sample = Sample(value: real, now: uint32)

  const INITIAL := FaultState(false, 0, 0, false, false)

  function Distance(a: real, b: real): real {
    if a < b then b - a else a - b
  }

  predicate CompareValue(value: real, threshold: real, c: Condition) {
    match c
    case GreaterThan => value > threshold
    case LessThan => value < threshold
    case Equal => Distance(value, threshold) < 0.0001
    case NotEqual => Distance(value, threshold) >= 0.0001
    case GreaterEqual => value >= threshold
    case LessEqual => value <= threshold
    case OtherCondition => false
  }

  predicate Triggers(c: FaultConfig, s: Sample) {
    CompareValue(s.value, c.triggerThreshold, c.condition)
  }

  /** The recover test compares in the direction of the trigger test, with the other threshold. */
  predicate Recovers(c: FaultConfig, s: Sample) {
    !Triggers(c, s) && CompareValue(s.value, c.recoverThreshold, c.condition)
  }

  // ---------------------------------------------------------------- one sample

  function OnTrigger(c: FaultConfig, st: FaultState, now: uint32): FaultState {
    var started := if st.triggerActive then st
                   else st.(triggerActive := true, faultStart := now, recoverActive := false);
    if Elapsed(now, started.faultStart) >= c.triggerTimeMs then started.(isFault := true) else started
  }

  function OnRecover(c: FaultConfig, st: FaultState, now: uint32): FaultState {
    var started := if st.recoverActive then st else st.(recoverActive := true, recoverStart := now);
    if Elapsed(now, started.recoverStart) >= c.recoverTimeMs then started.(isFault := false, recoverActive := false)
    else started
  }

  function Detect(c: FaultConfig, st: FaultState, s: Sample): FaultState {
    if !c.enabled then st
    else if Triggers(c, s) then OnTrigger(c, st, s.now)
    else
      var idle := st.(triggerActive := false);
      if !idle.isFault then idle
      else if Recovers(c, s) then OnRecover(c, idle, s.now)
      else idle.(recoverActive := false)
  }

  /** The state after a history of samples. */
  function StateAfter(c: FaultConfig, h: seq<Sample>): FaultState {
    if h == [] then INITIAL else Detect(c, StateAfter(c, h[..|h| - 1]), h[|h| - 1])
  }

  // ---------------------------------------------------------------- the history

  /** First sample of the unbroken stretch of triggering samples that ends at `i`. */
  function TriggerSince(c: FaultConfig, h: seq<Sample>, i: nat): (k: nat)
    requires i < |h|
    ensures k <= i
  {
    if i == 0 || !Triggers(c, h[i - 1]) then i else TriggerSince(c, h, i - 1)
  }

  /** First sample of the unbroken stretch of recovering samples that ends at `i`. */
  function RecoverSince(c: FaultConfig, h: seq<Sample>, i: nat): (k: nat)
    requires i < |h|
    ensures k <= i
  {
    if i == 0 || !Recovers(c, h[i - 1]) then i else RecoverSince(c, h, i - 1)
  }

  /** At sample `i` the trigger condition has held for the trigger time, as the tick counter shows it. */
  predicate TriggerMet(c: FaultConfig, h: seq<Sample>, i: nat)
    requires i < |h|
  {
    Triggers(c, h[i]) && Elapsed(h[i].now, h[TriggerSince(c, h, i)].now) >= c.triggerTimeMs
  }

  predicate RecoverMet(c: FaultConfig, h: seq<Sample>, i: nat)
    requires i < |h|
  {
    Recovers(c, h[i]) && Elapsed(h[i].now, h[RecoverSince(c, h, i)].now) >= c.recoverTimeMs
  }

  /** The timers tell where the present stretches began, and at most one of them runs. */
  predicate TimersFit(c: FaultConfig, h: seq<Sample>, st: FaultState) {
    && !(st.triggerActive && st.recoverActive)
    && (st.recoverActive ==> st.isFault)
    && (st.triggerActive <==> h != [] && Triggers(c, h[|h| - 1]))
    && (st.triggerActive ==> st.faultStart == h[TriggerSince(c, h, |h| - 1)].now)
    && (st.recoverActive <==> h != [] && st.isFault && Recovers(c, h[|h| - 1]))
    && (st.recoverActive ==> st.recoverStart == h[RecoverSince(c, h, |h| - 1)].now)
  }

  lemma {:induction false} SinceIsPrefixed(c: FaultConfig, h: seq<Sample>, i: nat, n: nat)
    requires i < n <= |h|
    ensures TriggerSince(c, h[..n], i) == TriggerSince(c, h, i)
    ensures RecoverSince(c, h[..n], i) == RecoverSince(c, h, i)
  {
    if i != 0 {
      SinceIsPrefixed(c, h, i - 1, n);
    }
  }

  /** Timers of an enabled fault, after every history. */
  lemma {:induction false} TimersAlwaysFit(c: FaultConfig, h: seq<Sample>)
    requires c.enabled
    ensures TimersFit(c, h, StateAfter(c, h))
  {
    if h != [] {
      var n := |h| - 1;
      TimersAlwaysFit(c, h[..n]);
      if n != 0 {
        SinceIsPrefixed(c, h, n - 1, n);
      }
    }
  }

  /** When the last sample changes the fault: it rises exactly with the trigger time met, and falls exactly with the
      recover time met. */
  lemma RiseAndFall(c: FaultConfig, h: seq<Sample>)
    requires c.enabled && h != []
    ensures var n := |h| - 1;
      var before, after := StateAfter(c, h[..n]).isFault, StateAfter(c, h).isFault;
      && (!before && after <==> !before && TriggerMet(c, h, n))
      && (before && !after <==> before && RecoverMet(c, h, n))
  {
    var n := |h| - 1;
    TimersAlwaysFit(c, h[..n]);
    if n != 0 {
      SinceIsPrefixed(c, h, n - 1, n);
    }
  }

  /** Some sample met the trigger time, and none since has met the recover time. */
  ghost predicate Latched(c: FaultConfig, h: seq<Sample>) {
    exists i :: 0 <= i < |h| && TriggerMet(c, h, i) && forall j :: i < j < |h| ==> !RecoverMet(c, h, j)
  }

  lemma MetIsPrefixed(c: FaultConfig, h: seq<Sample>, n: nat)
    requires n <= |h|
    ensures forall i :: 0 <= i < n ==> TriggerMet(c, h[..n], i) == TriggerMet(c, h, i)
    ensures forall i :: 0 <= i < n ==> RecoverMet(c, h[..n], i) == RecoverMet(c, h, i)
  {
    forall i | 0 <= i < n
      ensures TriggerMet(c, h[..n], i) == TriggerMet(c, h, i) && RecoverMet(c, h[..n], i) == RecoverMet(c, h, i)
    {
      SinceIsPrefixed(c, h, i, n);
    }
  }

  lemma LatchedByLast(c: FaultConfig, h: seq<Sample>)
    requires h != []
    ensures var n := |h| - 1;
      Latched(c, h) <==> TriggerMet(c, h, n) || (Latched(c, h[..n]) && !RecoverMet(c, h, n))
  {
    var n := |h| - 1;
    MetIsPrefixed(c, h, n);
    if Latched(c, h) && !TriggerMet(c, h, n) {
      var i :| 0 <= i < |h| && TriggerMet(c, h, i) && forall j :: i < j < |h| ==> !RecoverMet(c, h, j);
      assert i < n && TriggerMet(c, h[..n], i);
    }
    if Latched(c, h[..n]) && !RecoverMet(c, h, n) {
      var i :| 0 <= i < n && TriggerMet(c, h[..n], i) && forall j :: i < j < n ==> !RecoverMet(c, h[..n], j);
      assert TriggerMet(c, h, i);
      forall j | i < j < |h| ensures !RecoverMet(c, h, j) {
        if j < n { assert !RecoverMet(c, h[..n], j); }
      }
    }
  }

  /** The debounced fault is a function of the sample history alone. */
  lemma {:induction false} FaultIsLatched(c: FaultConfig, h: seq<Sample>)
    requires c.enabled
    ensures StateAfter(c, h).isFault <==> Latched(c, h)
  {
    if h != [] {
      FaultIsLatched(c, h[..|h| - 1]);
      RiseAndFall(c, h);
      LatchedByLast(c, h);
    }
  }

  /** A disabled fault never leaves its initial state. */
  lemma {:induction false} DisabledStaysInitial(c: FaultConfig, h: seq<Sample>)
    requires !c.enabled
    ensures StateAfter(c, h) == INITIAL
  {
    if h != [] {
      DisabledStaysInitial(c, h[..|h| - 1]);
    }
  }

  /** The value passes the comparison of the fault with the recover threshold. */
  predicate PassesRecover(c: FaultConfig, s: Sample) {
    CompareValue(s.value, c.recoverThreshold, c.condition)
  }

  /** Whatever the comparison, a sample that does not pass it never clears a standing fault. */
  lemma {:induction false} OnlyPassingSamplesClear(c: FaultConfig, h: seq<Sample>, later: seq<Sample>)
    requires c.enabled && StateAfter(c, h).isFault
    requires forall i :: 0 <= i < |later| ==> !PassesRecover(c, later[i])
    ensures StateAfter(c, h + later).isFault
  {
    if later == [] {
      assert h + later == h;
    } else {
      var n := |later| - 1;
      OnlyPassingSamplesClear(c, h, later[..n]);
      assert (h + later)[..|h| + n] == h + later[..n];
    }
  }

  /** So recovery needs the value inside a band: with `>=`, at or above the recover threshold and below the trigger
      threshold. A standing fault whose value stays below the recover threshold never clears. */
  lemma NoRecoveryBelowTheBand(c: FaultConfig, h: seq<Sample>, later: seq<Sample>)
    requires c.enabled && c.condition == GreaterEqual
    requires StateAfter(c, h).isFault
    requires forall i :: 0 <= i < |later| ==> later[i].value < c.recoverThreshold
    ensures StateAfter(c, h + later).isFault
  {
    OnlyPassingSamplesClear(c, h, later);
  }

  /** The configured fault for too large a temperature difference between the clusters. */
  const DELTA_TEMP_OVER := FaultConfig(true, Derating, 15.0, 10.0, 10000, 10000, GreaterEqual, 50)

  /** A difference of 20 degrees for ten seconds raises it; if the difference then drops below 10 at once and stays
      there, the fault stands for ever. */
  lemma DeltaTempFaultStays(start: nat, later: seq<Sample>)
    requires forall i :: 0 <= i < |later| ==> later[i].value < 10.0
    ensures var h := [Sample(20.0, start % U32_SPAN), Sample(20.0, (start + 10000) % U32_SPAN)];
      && !StateAfter(DELTA_TEMP_OVER, h[..1]).isFault
      && StateAfter(DELTA_TEMP_OVER, h).isFault && StateAfter(DELTA_TEMP_OVER, h + later).isFault
  {
    var h := [Sample(20.0, start % U32_SPAN), Sample(20.0, (start + 10000) % U32_SPAN)];
    ElapsedIsExact(start, start + 10000);
    assert h[..1][..0] == [] && h[..2] == h;
    assert StateAfter(DELTA_TEMP_OVER, h[..1]) == FaultState(false, start % U32_SPAN, 0, true, false);
    NoRecoveryBelowTheBand(DELTA_TEMP_OVER, h, later);
  }

  // ---------------------------------------------------------------- steady values

  lemma {:induction false} SteadySince(c: FaultConfig, h: seq<Sample>, i: nat, n: nat)
    requires i <= n < |h|
    ensures (forall k :: i <= k <= n ==> Triggers(c, h[k])) && (i == 0 || !Triggers(c, h[i - 1])) ==>
              TriggerSince(c, h, n) == i
    ensures (forall k :: i <= k <= n ==> Recovers(c, h[k])) && (i == 0 || !Recovers(c, h[i - 1])) ==>
              RecoverSince(c, h, n) == i
  {
    if i < n {
      SteadySince(c, h, i, n - 1);
    }
  }

  /** From the first sample to the last, `timeMs` has passed on the tick counter. */
  predicate Lasts(h: seq<Sample>, timeMs: uint32) {
    h != [] && (h[|h| - 1].now - h[0].now) % 0x1_0000_0000 >= timeMs
  }

  lemma SteadyRaises(c: FaultConfig, h: seq<Sample>)
    requires c.enabled && Lasts(h, c.triggerTimeMs) && forall i :: 0 <= i < |h| ==> Triggers(c, h[i])
    ensures StateAfter(c, h).isFault
  {
    SteadySince(c, h, 0, |h| - 1);
    assert TriggerMet(c, h, |h| - 1);
    FaultIsLatched(c, h);
  }

  lemma QuietNeverRaises(c: FaultConfig, h: seq<Sample>)
    requires c.enabled && forall i :: 0 <= i < |h| ==> !Triggers(c, h[i])
    ensures !StateAfter(c, h).isFault
  {
    FaultIsLatched(c, h);
  }

  lemma StretchIsMet(c: FaultConfig, all: seq<Sample>, i: nat)
    requires 0 < i < |all| && !Recovers(c, all[i - 1]) && forall k :: i <= k < |all| ==> Recovers(c, all[k])
    requires (all[|all| - 1].now - all[i].now) % 0x1_0000_0000 >= c.recoverTimeMs
    ensures RecoverMet(c, all, |all| - 1)
  {
    SteadySince(c, all, i, |all| - 1);
  }

  lemma MetIsCleared(c: FaultConfig, all: seq<Sample>)
    requires c.enabled && all != [] && RecoverMet(c, all, |all| - 1)
    ensures !StateAfter(c, all).isFault
  {
    RiseAndFall(c, all);
  }

  /** After a sample that does not recover, a long enough stretch of recovering ones clears the fault. */
  lemma SteadyClears(c: FaultConfig, h: seq<Sample>, later: seq<Sample>)
    requires c.enabled && h != [] && !Recovers(c, h[|h| - 1])
    requires Lasts(later, c.recoverTimeMs) && forall i :: 0 <= i < |later| ==> Recovers(c, later[i])
    ensures !StateAfter(c, h + later).isFault
  {
    var all := h + later;
    forall k | |h| <= k < |all| ensures Recovers(c, all[k]) {
      assert all[k] == later[k - |h|];
    }
    StretchIsMet(c, all, |h|);
    MetIsCleared(c, all);
  }

  // the six comparisons, and what a value that keeps passing or failing each of them does

  lemma GreaterThanDecides(c: FaultConfig, h: seq<Sample>)
    requires c.enabled && c.condition == GreaterThan
    ensures (forall i :: 0 <= i < |h| ==> h[i].value > c.triggerThreshold) && Lasts(h, c.triggerTimeMs) ==>
              StateAfter(c, h).isFault
    ensures (forall i :: 0 <= i < |h| ==> h[i].value <= c.triggerThreshold) ==> !StateAfter(c, h).isFault
  {
    SteadyDecides(c, h);
  }

  lemma LessThanDecides(c: FaultConfig, h: seq<Sample>)
    requires c.enabled && c.condition == LessThan
    ensures (forall i :: 0 <= i < |h| ==> h[i].value < c.triggerThreshold) && Lasts(h, c.triggerTimeMs) ==>
              StateAfter(c, h).isFault
    ensures (forall i :: 0 <= i < |h| ==> h[i].value >= c.triggerThreshold) ==> !StateAfter(c, h).isFault
  {
    SteadyDecides(c, h);
  }

  lemma EqualDecides(c: FaultConfig, h: seq<Sample>)
    requires c.enabled && c.condition == Equal
    ensures Lasts(h, c.triggerTimeMs)
            && (forall i :: 0 <= i < |h| ==>
                  c.triggerThreshold - 0.0001 < h[i].value < c.triggerThreshold + 0.0001) ==>
              StateAfter(c, h).isFault
    ensures (forall i :: 0 <= i < |h| ==>
               h[i].value <= c.triggerThreshold - 0.0001 || h[i].value >= c.triggerThreshold + 0.0001) ==>
              !StateAfter(c, h).isFault
  {
    SteadyDecides(c, h);
  }

  lemma NotEqualDecides(c: FaultConfig, h: seq<Sample>)
    requires c.enabled && c.condition == NotEqual
    ensures Lasts(h, c.triggerTimeMs)
            && (forall i :: 0 <= i < |h| ==>
                  h[i].value <= c.triggerThreshold - 0.0001 || h[i].value >= c.triggerThreshold + 0.0001) ==>
              StateAfter(c, h).isFault
    ensures (forall i :: 0 <= i < |h| ==>
               c.triggerThreshold - 0.0001 < h[i].value < c.triggerThreshold + 0.0001) ==> !StateAfter(c, h).isFault
  {
    SteadyDecides(c, h);
  }

  lemma GreaterEqualDecides(c: FaultConfig, h: seq<Sample>)
    requires c.enabled && c.condition == GreaterEqual
    ensures (forall i :: 0 <= i < |h| ==> h[i].value >= c.triggerThreshold) && Lasts(h, c.triggerTimeMs) ==>
              StateAfter(c, h).isFault
    ensures (forall i :: 0 <= i < |h| ==> h[i].value < c.triggerThreshold) ==> !StateAfter(c, h).isFault
  {
    SteadyDecides(c, h);
  }

  lemma LessEqualDecides(c: FaultConfig, h: seq<Sample>)
    requires c.enabled && c.condition == LessEqual
    ensures (forall i :: 0 <= i < |h| ==> h[i].value <= c.triggerThreshold) && Lasts(h, c.triggerTimeMs) ==>
              StateAfter(c, h).isFault
    ensures (forall i :: 0 <= i < |h| ==> h[i].value > c.triggerThreshold) ==> !StateAfter(c, h).isFault
  {
    SteadyDecides(c, h);
  }

  /** A condition outside the enumeration never raises a fault. */
  lemma OtherConditionNeverRaises(c: FaultConfig, h: seq<Sample>)
    requires c.enabled && c.condition == OtherCondition
    ensures !StateAfter(c, h).isFault
  {
    QuietNeverRaises(c, h);
  }

  lemma SteadyDecides(c: FaultConfig, h: seq<Sample>)
    requires c.enabled
    ensures (forall i :: 0 <= i < |h| ==> Triggers(c, h[i])) && Lasts(h, c.triggerTimeMs) ==> StateAfter(c, h).isFault
    ensures (forall i :: 0 <= i < |h| ==> !Triggers(c, h[i])) ==> !StateAfter(c, h).isFault
  {
    if (forall i :: 0 <= i < |h| ==> Triggers(c, h[i])) && Lasts(h, c.triggerTimeMs) {
      SteadyRaises(c, h);
    }
    if forall i :: 0 <= i < |h| ==> !Triggers(c, h[i]) {
      QuietNeverRaises(c, h);
    }
  }

  /** The recovery band of `>=`: values at or above the recover threshold and below the trigger threshold, held for the
      recover time, clear the fault. */
  lemma BandClears(c: FaultConfig, h: seq<Sample>, later: seq<Sample>)
    requires c.enabled && c.condition == GreaterEqual
    requires h != [] && h[|h| - 1].value >= c.triggerThreshold && Lasts(later, c.recoverTimeMs)
    requires forall i :: 0 <= i < |later| ==> c.recoverThreshold <= later[i].value < c.triggerThreshold
    ensures !StateAfter(c, h + later).isFault
  {
    SteadyClears(c, h, later);
  }

  /** The configured fault for the loss of one rack, whose data source is 0 or 1. */
  const ONE_RACK_LOST := FaultConfig(true, Shutdown, 1.0, 0.0, 30000, 0, GreaterEqual, 0)

  /** The signal at 1 for thirty seconds raises it, and the first 0 clears it. */
  lemma LostRackIsReported(h: seq<Sample>, back: Sample)
    requires Lasts(h, 30000) && forall i :: 0 <= i < |h| ==> h[i].value == 1.0
    requires back.value == 0.0
    ensures StateAfter(ONE_RACK_LOST, h).isFault && !StateAfter(ONE_RACK_LOST, h + [back]).isFault
  {
    GreaterEqualDecides(ONE_RACK_LOST, h);
    BandClears(ONE_RACK_LOST, h, [back]);
  }

  // ---------------------------------------------------------------- real time

  /** The samples were taken at the times `t`, at most `gap` apart, and saw them through the 32-bit tick counter. */
  ghost predicate Clocked(h: seq<Sample>, t: seq<nat>, gap: nat) {
    && |t| == |h|
    && (forall i :: 0 <= i < |h| ==> h[i].now == t[i] % U32_SPAN)
    && (forall i :: 0 < i < |h| ==> t[i - 1] <= t[i] <= t[i - 1] + gap)
  }

  /** At sample `i` the trigger condition has really held for the trigger time. */
  predicate TriggerHeld(c: FaultConfig, h: seq<Sample>, t: seq<nat>, i: nat)
    requires i < |h| == |t|
  {
    Triggers(c, h[i]) && t[i] - t[TriggerSince(c, h, i)] >= c.triggerTimeMs
  }

  predicate RecoverHeld(c: FaultConfig, h: seq<Sample>, t: seq<nat>, i: nat)
    requires i < |h| == |t|
  {
    Recovers(c, h[i]) && t[i] - t[RecoverSince(c, h, i)] >= c.recoverTimeMs
  }

  lemma ElapsedIsNoMore(start: nat, end: nat)
    requires start <= end
    ensures Elapsed(end % U32_SPAN, start % U32_SPAN) <= end - start
  {
    var d := (end - start) / U32_SPAN;
    ElapsedIsExact(start, end - d * U32_SPAN);
    assert (end - d * U32_SPAN) % U32_SPAN == end % U32_SPAN;
  }

  lemma {:induction false} TimesClimb(h: seq<Sample>, t: seq<nat>, gap: nat, i: nat, j: nat)
    requires Clocked(h, t, gap) && i <= j < |h|
    ensures t[i] <= t[j]
  {
    if i < j {
      TimesClimb(h, t, gap, i, j - 1);
    }
  }

  lemma MetIsHeld(c: FaultConfig, h: seq<Sample>, t: seq<nat>, gap: nat, i: nat)
    requires Clocked(h, t, gap) && i < |h|
    ensures TriggerMet(c, h, i) ==> TriggerHeld(c, h, t, i)
    ensures RecoverMet(c, h, i) ==> RecoverHeld(c, h, t, i)
  {
    var a, b := TriggerSince(c, h, i), RecoverSince(c, h, i);
    TimesClimb(h, t, gap, a, i);
    TimesClimb(h, t, gap, b, i);
    ElapsedIsNoMore(t[a], t[i]);
    ElapsedIsNoMore(t[b], t[i]);
  }

  /** The first sample past the trigger time is seen before the tick counter comes round again. */
  lemma {:induction false} TriggerIsNoticed(c: FaultConfig, h: seq<Sample>, t: seq<nat>, gap: nat, i: nat)
    returns (k: nat)
    requires Clocked(h, t, gap) && i < |h| && c.triggerTimeMs + gap <= U32_SPAN && TriggerHeld(c, h, t, i)
    ensures k <= i && TriggerMet(c, h, k) && forall m :: k <= m <= i ==> Triggers(c, h[m])
  {
    var a := TriggerSince(c, h, i);
    if a != i && TriggerHeld(c, h, t, i - 1) {
      k := TriggerIsNoticed(c, h, t, gap, i - 1);
    } else {
      k := i;
      TimesClimb(h, t, gap, a, i);
      ElapsedIsExact(t[a], t[i]);
    }
  }

  lemma {:induction false} RecoverIsNoticed(c: FaultConfig, h: seq<Sample>, t: seq<nat>, gap: nat, i: nat)
    returns (k: nat)
    requires Clocked(h, t, gap) && i < |h| && c.recoverTimeMs + gap <= U32_SPAN && RecoverHeld(c, h, t, i)
    ensures k <= i && RecoverMet(c, h, k) && forall m :: k <= m <= i ==> Recovers(c, h[m])
  {
    var a := RecoverSince(c, h, i);
    if a != i && RecoverHeld(c, h, t, i - 1) {
      k := RecoverIsNoticed(c, h, t, gap, i - 1);
    } else {
      k := i;
      TimesClimb(h, t, gap, a, i);
      ElapsedIsExact(t[a], t[i]);
    }
  }

  /** The condition really held for the trigger time at some sample, and since then no recovery held for its time. */
  ghost predicate ReallyLatched(c: FaultConfig, h: seq<Sample>, t: seq<nat>)
    requires |t| == |h|
  {
    exists i :: 0 <= i < |h| && TriggerHeld(c, h, t, i) && forall j :: i < j < |h| ==> !RecoverHeld(c, h, t, j)
  }

  lemma LatchedIsReal(c: FaultConfig, h: seq<Sample>, t: seq<nat>, gap: nat)
    requires Clocked(h, t, gap) && c.recoverTimeMs + gap <= U32_SPAN && Latched(c, h)
    ensures ReallyLatched(c, h, t)
  {
    var i :| 0 <= i < |h| && TriggerMet(c, h, i) && forall j :: i < j < |h| ==> !RecoverMet(c, h, j);
    MetIsHeld(c, h, t, gap, i);
    forall j | i < j < |h| ensures !RecoverHeld(c, h, t, j) {
      if RecoverHeld(c, h, t, j) {
        var k := RecoverIsNoticed(c, h, t, gap, j);
        assert false;
      }
    }
  }

  lemma RealIsLatched(c: FaultConfig, h: seq<Sample>, t: seq<nat>, gap: nat)
    requires Clocked(h, t, gap) && c.triggerTimeMs + gap <= U32_SPAN && ReallyLatched(c, h, t)
    ensures Latched(c, h)
  {
    var i :| 0 <= i < |h| && TriggerHeld(c, h, t, i) && forall j :: i < j < |h| ==> !RecoverHeld(c, h, t, j);
    var k := TriggerIsNoticed(c, h, t, gap, i);
    forall j | k < j < |h| ensures !RecoverMet(c, h, j) {
      MetIsHeld(c, h, t, gap, j);
      if j <= i { assert Triggers(c, h[j]); }
    }
  }

  /** In real time: with samples close enough together that no time limit plus one gap exceeds 2^32 ms, the wrap of the
      tick counter is never noticed, over histories of any length. */
  lemma FaultInRealTime(c: FaultConfig, h: seq<Sample>, t: seq<nat>, gap: nat)
    requires c.enabled && Clocked(h, t, gap)
    requires c.triggerTimeMs + gap <= U32_SPAN && c.recoverTimeMs + gap <= U32_SPAN
    ensures StateAfter(c, h).isFault <==> ReallyLatched(c, h, t)
  {
    FaultIsLatched(c, h);
    if Latched(c, h) {
      LatchedIsReal(c, h, t, gap);
    }
    if ReallyLatched(c, h, t) {
      RealIsLatched(c, h, t, gap);
    }
  }
}
