/** The periodic scan over all faults: detection, handling of rising edges, and the fault bitmap. */
module FaultMonitor {
  import opened Bytes
  import opened FaultDebounce
  import opened MachineInts
  import opened Occurrences

  const M_FAULT_NUM := 49
  const BITMAP_BYTES := 25

  // ---------------------------------------------------------------- specification

  /** What one scan reads for each fault: the value, and the clock at that moment. */
  datatype Scan = Scan(samples: seq<Sample>)

  predicate WellFormed(scans: seq<Scan>) {
    forall p :: 0 <= p < |scans| ==> |scans[p].samples| == M_FAULT_NUM
  }

  /** The samples that fault `i` has seen. */
  function SamplesOf(scans: seq<Scan>, i: nat): (h: seq<Sample>)
    requires i < M_FAULT_NUM && WellFormed(scans)
    ensures |h| == |scans| && forall p :: 0 <= p < |h| ==> h[p] == scans[p].samples[i]
  {
    seq(|scans|, p requires 0 <= p < |scans| => scans[p].samples[i])
  }

  lemma SamplesGrow(scans: seq<Scan>, scan: Scan, i: nat)
    requires i < M_FAULT_NUM && WellFormed(scans) && |scan.samples| == M_FAULT_NUM
    ensures SamplesOf(scans + [scan], i) == SamplesOf(scans, i) + [scan.samples[i]]
  {
  }

  function StateOf(configs: seq<FaultConfig>, scans: seq<Scan>, i: nat): FaultState
    requires i < M_FAULT_NUM == |configs| && WellFormed(scans)
  {
    StateAfter(configs[i], SamplesOf(scans, i))
  }

  /** The last sample makes the fault rise. */
  predicate Rises(c: FaultConfig, h: seq<Sample>) {
    h != [] && !StateAfter(c, h[..|h| - 1]).isFault && StateAfter(c, h).isFault
  }

  /** How often the fault has risen. */
  function RiseCount(c: FaultConfig, h: seq<Sample>): nat {
    if h == [] then 0 else RiseCount(c, h[..|h| - 1]) + if Rises(c, h) then 1 else 0
  }

  /** Which faults rise in the last scan. */
  function RiseFlags(configs: seq<FaultConfig>, scans: seq<Scan>): (flags: seq<bool>)
    requires |configs| == M_FAULT_NUM && WellFormed(scans)
    ensures |flags| == |configs| && forall i :: 0 <= i < |flags| ==> flags[i] == Rises(configs[i], SamplesOf(scans, i))
  {
    seq(|configs|, i requires 0 <= i < |configs| => Rises(configs[i], SamplesOf(scans, i)))
  }

  /** Places below `n` where the flag is set. */
  function Edges(flags: seq<bool>, n: nat): (es: seq<nat>)
    requires n <= |flags|
    ensures forall k :: 0 <= k < |es| ==> es[k] < n
  {
    if n == 0 then []
    else if flags[n - 1] then Edges(flags, n - 1) + [n - 1]
    else Edges(flags, n - 1)
  }

  predicate Known(configs: seq<FaultConfig>, fs: seq<nat>) {
    forall k :: 0 <= k < |fs| ==> fs[k] < |configs|
  }

  /** Faults handled so far, in order. */
  function HandledAfter(configs: seq<FaultConfig>, scans: seq<Scan>): (fs: seq<nat>)
    requires |configs| == M_FAULT_NUM && WellFormed(scans)
    ensures Known(configs, fs)
  {
    if scans == [] then []
    else HandledAfter(configs, scans[..|scans| - 1]) + Edges(RiseFlags(configs, scans), |configs|)
  }

  /** Ratio of a derating fault; an invalid one does not derate. */
  function RatioOf(c: FaultConfig): (r: uint16)
    ensures r <= 100
  {
    if c.deratingRatio > 100 then 100 else c.deratingRatio
  }

  /** The ratio left after a list of faults was handled. */
  function Derated(configs: seq<FaultConfig>, handled: seq<nat>): (r: uint16)
    requires Known(configs, handled)
    ensures r <= 100
  {
    if handled == [] then 100
    else
      var before, c := Derated(configs, handled[..|handled| - 1]), configs[handled[|handled| - 1]];
      if c.handle == Derating && RatioOf(c) < before then RatioOf(c) else before
  }

  // ---------------------------------------------------------------- bitmap bits

  /** Mask of bit `k`. */
  function Bit(k: nat): byte
    requires k < 8
  {
    match k
    case 0 => 1 case 1 => 2 case 2 => 4 case 3 => 8
    case 4 => 16 case 5 => 32 case 6 => 64 case 7 => 128
  }

  predicate HasBit(b: byte, k: nat)
    requires k < 8
  {
    b & Bit(k) != 0
  }

  lemma OrSetsOneBit(b: byte, k: nat, j: nat)
    requires k < 8 && j < 8
    ensures HasBit(b | Bit(k), j) <==> j == k || HasBit(b, j)
  {
    var m, n := Bit(k), Bit(j);
    MasksAreApart(b, m, n);
    assert m == n <==> k == j;
  }

  lemma MasksAreApart(b: byte, m: byte, n: byte)
    requires m in {1, 2, 4, 8, 16, 32, 64, 128} && n in {1, 2, 4, 8, 16, 32, 64, 128}
    ensures (b | m) & n != 0 <==> m == n || b & n != 0
  {
  }

  predicate BitAt(bytes: seq<byte>, i: nat)
    requires i < 8 * |bytes|
  {
    HasBit(bytes[i / 8], i % 8)
  }

  lemma OrAt(bytes: seq<byte>, i: nat, j: nat)
    requires i < 8 * |bytes| && j < 8 * |bytes|
    ensures BitAt(bytes[i / 8 := bytes[i / 8] | Bit(i % 8)], j) <==> j == i || BitAt(bytes, j)
  {
    if i / 8 == j / 8 {
      OrSetsOneBit(bytes[i / 8], i % 8, j % 8);
    }
  }

  /** The value of a bit, if it is set. */
  function BitValue(isSet: bool, value: nat): nat {
    if isSet then value else 0
  }

  /** A byte is the sum of its bits. */
  lemma ByteIsSumOfBits(b: byte)
    ensures b as int == BitValue(HasBit(b, 0), 1) + BitValue(HasBit(b, 1), 2) + BitValue(HasBit(b, 2), 4)
                        + BitValue(HasBit(b, 3), 8) + BitValue(HasBit(b, 4), 16) + BitValue(HasBit(b, 5), 32)
                        + BitValue(HasBit(b, 6), 64) + BitValue(HasBit(b, 7), 128)
  {
  }

  predicate Stands(states: seq<FaultState>, i: nat) {
    i < |states| && states[i].isFault
  }

  /** The value of byte `n` of the bitmap: fault `8 n + k` adds 2 to the power of `k`. */
  function BitmapByte(states: seq<FaultState>, n: nat): nat {
    BitValue(Stands(states, 8 * n), 1) + BitValue(Stands(states, 8 * n + 1), 2)
    + BitValue(Stands(states, 8 * n + 2), 4) + BitValue(Stands(states, 8 * n + 3), 8)
    + BitValue(Stands(states, 8 * n + 4), 16) + BitValue(Stands(states, 8 * n + 5), 32)
    + BitValue(Stands(states, 8 * n + 6), 64) + BitValue(Stands(states, 8 * n + 7), 128)
  }

  lemma BitInByte(bytes: seq<byte>, n: nat, k: nat)
    requires n < |bytes| && k < 8
    ensures BitAt(bytes, 8 * n + k) <==> HasBit(bytes[n], k)
  {
    assert (8 * n + k) / 8 == n && (8 * n + k) % 8 == k;
  }

  lemma BitmapByteFits(bytes: seq<byte>, states: seq<FaultState>, n: nat)
    requires n < |bytes| && forall i :: 8 * n <= i < 8 * n + 8 ==> (BitAt(bytes, i) <==> Stands(states, i))
    ensures bytes[n] as int == BitmapByte(states, n)
  {
    ByteIsSumOfBits(bytes[n]);
    forall k | 0 <= k < 8 ensures HasBit(bytes[n], k) <==> Stands(states, 8 * n + k) {
      BitInByte(bytes, n, k);
    }
  }

  // ---------------------------------------------------------------- the scan

  lemma LastSample(c: FaultConfig, h: seq<Sample>, s: Sample, h': seq<Sample>)
    requires h' == h + [s]
    ensures StateAfter(c, h') == Detect(c, StateAfter(c, h), s)
    ensures Rises(c, h') <==> !StateAfter(c, h).isFault && StateAfter(c, h').isFault
  {
    assert h'[..|h|] == h;
  }

  /** The states within a scan: new for the faults below `i`, old for the others. */
  ghost predicate ScannedTo(configs: seq<FaultConfig>, before: seq<Scan>, after: seq<Scan>, sts: seq<FaultState>,
                            i: nat)
    requires |configs| == M_FAULT_NUM && WellFormed(before) && WellFormed(after)
  {
    && |sts| == M_FAULT_NUM
    && forall k :: 0 <= k < M_FAULT_NUM ==> sts[k] == StateOf(configs, if k < i then after else before, k)
  }

  lemma StatesMoveOn(configs: seq<FaultConfig>, before: seq<Scan>, after: seq<Scan>, sts: seq<FaultState>,
                     i: nat, s: Sample)
    requires i < M_FAULT_NUM == |configs| && WellFormed(before) && WellFormed(after)
    requires ScannedTo(configs, before, after, sts, i) && SamplesOf(after, i) == SamplesOf(before, i) + [s]
    ensures ScannedTo(configs, before, after, sts[i := Detect(configs[i], sts[i], s)], i + 1)
  {
    LastSample(configs[i], SamplesOf(before, i), s, SamplesOf(after, i));
  }

  lemma EdgesMoveOn(configs: seq<FaultConfig>, before: seq<Scan>, after: seq<Scan>, i: nat, s: Sample, h: seq<nat>)
    requires i < M_FAULT_NUM == |configs| && WellFormed(before) && WellFormed(after)
    requires SamplesOf(after, i) == SamplesOf(before, i) + [s]
    ensures var st, flags := StateOf(configs, before, i), RiseFlags(configs, after);
      h + Edges(flags, i + 1)
      == h + Edges(flags, i) + if !st.isFault && Detect(configs[i], st, s).isFault then [i] else []
  {
    LastSample(configs[i], SamplesOf(before, i), s, SamplesOf(after, i));
  }

  lemma HandledGrows(configs: seq<FaultConfig>, scans: seq<Scan>, scan: Scan)
    requires |configs| == M_FAULT_NUM && WellFormed(scans) && WellFormed(scans + [scan])
    ensures HandledAfter(configs, scans + [scan])
            == HandledAfter(configs, scans) + Edges(RiseFlags(configs, scans + [scan]), |configs|)
  {
    assert (scans + [scan])[..|scans|] == scans;
  }

  class Monitor {
    const configs: seq<FaultConfig>
    const states: array<FaultState>
    const bitmap: array<byte>
    var deratingRatio: uint16
    ghost var handled: seq<nat>
    ghost var scans: seq<Scan>

    ghost predicate Sized() {
      |configs| == states.Length == M_FAULT_NUM && bitmap.Length == BITMAP_BYTES
    }

    /** Bit `i` stands for fault `i`; the bits behind the last fault are clear. */
    ghost predicate BitmapFits()
      requires Sized()
      reads states, bitmap
    {
      forall i :: 0 <= i < 8 * BITMAP_BYTES ==> (BitAt(bitmap[..], i) <==> i < M_FAULT_NUM && states[i].isFault)
    }

    /** Everything the monitor holds follows from the scans it has made. */
    ghost predicate Valid()
      reads this, states, bitmap
    {
      && Sized() && WellFormed(scans) && BitmapFits()
      && (forall i :: 0 <= i < M_FAULT_NUM ==> states[i] == StateOf(configs, scans, i))
      && handled == HandledAfter(configs, scans)
      && deratingRatio == Derated(configs, handled)
    }

    constructor (configs: seq<FaultConfig>)
      requires |configs| == M_FAULT_NUM
      ensures Valid() && scans == [] && this.configs == configs && fresh(states) && fresh(bitmap)
      ensures states.Length == 49 && bitmap.Length == 25 && deratingRatio == 100
    {
      this.configs := configs;
      states := new FaultState[M_FAULT_NUM](_ => INITIAL);
      bitmap := new byte[BITMAP_BYTES](_ => 0);
      deratingRatio := 100;
      handled, scans := [], [];
    }

    method DetectMFault(faultId: nat, currentValue: real, currentTime: uint32)
      requires Sized()
      modifies states
      ensures states[..] == if faultId >= M_FAULT_NUM then old(states[..]) else
                var s := Sample(currentValue, currentTime);
                old(states[..])[faultId := Detect(configs[faultId], old(states[faultId]), s)]
    {
      if faultId >= M_FAULT_NUM {
        return;
      }
      var config := configs[faultId];
      if !config.enabled {
        assert states[..] == old(states[..])[faultId := states[faultId]];
        return;
      }
      var state := states[faultId];
      var triggerCondition := CompareValue(currentValue, config.triggerThreshold, config.condition);
      if triggerCondition {
        if !state.triggerActive {
          state := state.(triggerActive := true, faultStart := currentTime, recoverActive := false);
        }
        if Elapsed(currentTime, state.faultStart) >= config.triggerTimeMs {
          state := state.(isFault := true);
        }
      } else {
        state := state.(triggerActive := false);
        if state.isFault {
          var recoverCondition := CompareValue(currentValue, config.recoverThreshold, config.condition);
          if recoverCondition {
            if !state.recoverActive {
              state := state.(recoverActive := true, recoverStart := currentTime);
            }
            if Elapsed(currentTime, state.recoverStart) >= config.recoverTimeMs {
              state := state.(isFault := false, recoverActive := false);
            }
          } else {
            state := state.(recoverActive := false);
          }
        }
      }
      states[faultId] := state;
    }

    method ExecuteFaultHandle(faultType: nat)
      requires faultType < |configs| && Known(configs, handled)
      requires deratingRatio == Derated(configs, handled)
      modifies `deratingRatio, `handled
      ensures handled == old(handled) + [faultType] && deratingRatio == Derated(configs, handled)
      ensures deratingRatio == if configs[faultType].handle == Derating
                                  && configs[faultType].deratingRatio < old(deratingRatio)
                               then configs[faultType].deratingRatio else old(deratingRatio)
    {
      if configs[faultType].handle == Derating {
        var curDeratingRatio: uint16 := configs[faultType].deratingRatio;
        if curDeratingRatio < 0 || curDeratingRatio > 100 {
          curDeratingRatio := 100;
        }
        deratingRatio := if deratingRatio < curDeratingRatio then deratingRatio else curDeratingRatio;
      }
      handled := handled + [faultType];
      assert handled[..|handled| - 1] == old(handled);
    }

    method UpdateMFaultBitmap()
      requires Sized()
      modifies bitmap
      ensures BitmapFits()
      ensures forall n :: 0 <= n < BITMAP_BYTES ==> bitmap[n] as int == BitmapByte(states[..], n)
    {
      for i := 0 to BITMAP_BYTES
        invariant forall k :: 0 <= k < i ==> bitmap[k] == 0
      {
        bitmap[i] := 0;
      }
      for i := 0 to M_FAULT_NUM
        invariant forall j :: 0 <= j < 8 * BITMAP_BYTES ==> (BitAt(bitmap[..], j) <==> j < i && states[j].isFault)
      {
        if states[i].isFault {
          ghost var before := bitmap[..];
          bitmap[i / 8] := bitmap[i / 8] | Bit(i % 8);
          assert bitmap[..] == before[i / 8 := before[i / 8] | Bit(i % 8)];
          forall j | 0 <= j < 8 * BITMAP_BYTES
            ensures BitAt(bitmap[..], j) <==> j == i || BitAt(before, j)
          {
            OrAt(before, i, j);
          }
        }
      }
      forall n | 0 <= n < BITMAP_BYTES ensures bitmap[n] as int == BitmapByte(states[..], n) {
        BitmapByteFits(bitmap[..], states[..], n);
      }
    }

    /** Within the scan that leads from `before` to `after`, about to look at fault `i`. */
    ghost predicate InScan(before: seq<Scan>, after: seq<Scan>, i: nat)
      requires Sized() && i <= |configs| && WellFormed(before) && WellFormed(after)
      reads this, states
    {
      && ScannedTo(configs, before, after, states[..], i)
      && handled == HandledAfter(configs, before) + Edges(RiseFlags(configs, after), i)
      && deratingRatio == Derated(configs, handled)
    }

    /** Detection of fault `i`, with its handling when it rises. */
    method DetectAndHandle(i: nat, s: Sample)
      requires Sized() && i < M_FAULT_NUM && Known(configs, handled) && deratingRatio == Derated(configs, handled)
      modifies states, `deratingRatio, `handled
      ensures states[..] == old(states[..])[i := Detect(configs[i], old(states[i]), s)]
      ensures handled == old(handled) + if !old(states[i].isFault) && states[i].isFault then [i] else []
      ensures deratingRatio == Derated(configs, handled)
    {
      var preFault := states[i].isFault;
      DetectMFault(i, s.value, s.now);
      if !preFault && states[i].isFault {
        ExecuteFaultHandle(i);
      }
    }

    /** The same, as one turn of the scan. */
    method ScanFault(i: nat, s: Sample, ghost before: seq<Scan>, ghost after: seq<Scan>)
      requires Sized() && i < M_FAULT_NUM && WellFormed(before) && WellFormed(after) && InScan(before, after, i)
      requires SamplesOf(after, i) == SamplesOf(before, i) + [s]
      modifies states, `deratingRatio, `handled
      ensures InScan(before, after, i + 1)
    {
      StatesMoveOn(configs, before, after, states[..], i, s);
      EdgesMoveOn(configs, before, after, i, s, HandledAfter(configs, before));
      DetectAndHandle(i, s);
    }

    /** The loop over all faults. */
    method ScanFaults(scan: Scan, ghost before: seq<Scan>, ghost after: seq<Scan>)
      requires Sized() && |scan.samples| == M_FAULT_NUM && after == before + [scan]
      requires WellFormed(before) && WellFormed(after) && InScan(before, after, 0)
      modifies states, `deratingRatio, `handled
      ensures InScan(before, after, |configs|)
    {
      for i := 0 to states.Length
        invariant InScan(before, after, i)
      {
        SamplesGrow(before, scan, i);
        ScanFault(i, scan.samples[i], before, after);
      }
    }

    method BmsFaultDetectLoop(scan: Scan)
      requires Valid() && |scan.samples| == M_FAULT_NUM
      modifies this, states, bitmap
      ensures Valid() && scans == old(scans) + [scan]
    {
      ghost var before, after := scans, scans + [scan];
      assert WellFormed(after);
      ScanFaults(scan, before, after);
      scans := after;
      HandledGrows(configs, before, scan);
      UpdateMFaultBitmap();
    }
  }

  // ---------------------------------------------------------------- what the scans promise

  lemma {:induction false} EdgesOccurOnce(flags: seq<bool>, n: nat, i: nat)
    requires n <= |flags|
    ensures Count(Edges(flags, n), i) == if i < n && flags[i] then 1 else 0
  {
    if n != 0 {
      EdgesOccurOnce(flags, n - 1, i);
      CountOneMore(Edges(flags, n - 1), n - 1, i);
    }
  }

  lemma {:induction false} HandledCount(configs: seq<FaultConfig>, scans: seq<Scan>, i: nat)
    requires i < M_FAULT_NUM == |configs| && WellFormed(scans)
    ensures Count(HandledAfter(configs, scans), i) == RiseCount(configs[i], SamplesOf(scans, i))
  {
    if scans != [] {
      var n := |scans| - 1;
      HandledCount(configs, scans[..n], i);
      HandledByLast(configs, scans, i);
      assert SamplesOf(scans, i)[..n] == SamplesOf(scans[..n], i);
    }
  }

  lemma HandledByLast(configs: seq<FaultConfig>, scans: seq<Scan>, i: nat)
    requires i < M_FAULT_NUM == |configs| && WellFormed(scans) && scans != []
    ensures Count(HandledAfter(configs, scans), i)
            == Count(HandledAfter(configs, scans[..|scans| - 1]), i)
               + if Rises(configs[i], SamplesOf(scans, i)) then 1 else 0
  {
    var flags := RiseFlags(configs, scans);
    EdgesOccurOnce(flags, |configs|, i);
    CountAdd(HandledAfter(configs, scans[..|scans| - 1]), Edges(flags, |configs|), i);
  }

  /** Every rising edge of a fault is handled exactly once. */
  lemma HandledOncePerRise(configs: seq<FaultConfig>, scans: seq<Scan>, i: nat)
    requires |configs| == M_FAULT_NUM && WellFormed(scans) && i < M_FAULT_NUM
    ensures multiset(HandledAfter(configs, scans))[i] == RiseCount(configs[i], SamplesOf(scans, i))
  {
    HandledCount(configs, scans, i);
    CountIsMultiplicity(HandledAfter(configs, scans), i);
  }

  lemma {:induction false} DeratedIsLeast(configs: seq<FaultConfig>, handled: seq<nat>)
    requires Known(configs, handled)
    ensures var r := Derated(configs, handled);
      && (forall f :: f in handled && configs[f].handle == Derating ==> r <= RatioOf(configs[f]))
      && (r == 100 || exists f :: f in handled && configs[f].handle == Derating && r == RatioOf(configs[f]))
  {
    if handled != [] {
      var before := handled[..|handled| - 1];
      assert handled == before + [handled[|handled| - 1]];
      DeratedIsLeast(configs, before);
      assert forall f :: f in before ==> f in handled;
    }
  }

  /** The fault has risen in some scan. */
  predicate HasRisen(configs: seq<FaultConfig>, scans: seq<Scan>, i: nat)
    requires i < M_FAULT_NUM == |configs| && WellFormed(scans)
  {
    RiseCount(configs[i], SamplesOf(scans, i)) > 0
  }

  /** After any scans the ratio is the least of 100 and the configured ratios of all derating faults that have ever
      risen. */
  lemma DeratingIsLeastEverRisen(configs: seq<FaultConfig>, scans: seq<Scan>)
    requires |configs| == M_FAULT_NUM && WellFormed(scans)
    ensures var r := Derated(configs, HandledAfter(configs, scans));
      && r <= 100
      && (forall i: nat :: i < M_FAULT_NUM && configs[i].handle == Derating && HasRisen(configs, scans, i) ==>
            r <= configs[i].deratingRatio)
      && (r == 100 || exists i: nat :: i < M_FAULT_NUM && configs[i].handle == Derating && HasRisen(configs, scans, i)
                                       && r == configs[i].deratingRatio)
  {
    var handled := HandledAfter(configs, scans);
    DeratedIsLeast(configs, handled);
    forall i: nat | i < M_FAULT_NUM ensures HasRisen(configs, scans, i) <==> i in handled {
      HandledOncePerRise(configs, scans, i);
      assert i in handled <==> i in multiset(handled);
    }
  }

  lemma {:induction false} DeratedNeverGrows(configs: seq<FaultConfig>, handled: seq<nat>, more: seq<nat>)
    requires Known(configs, handled) && Known(configs, more)
    ensures Derated(configs, handled + more) <= Derated(configs, handled)
  {
    if more == [] {
      assert handled + more == handled;
    } else {
      DeratedNeverGrows(configs, handled, more[..|more| - 1]);
      assert (handled + more)[..|handled + more| - 1] == handled + more[..|more| - 1];
    }
  }

  /** No scan ever raises the ratio again. */
  lemma RatioNeverGrows(configs: seq<FaultConfig>, scans: seq<Scan>, scan: Scan)
    requires |configs| == M_FAULT_NUM && WellFormed(scans) && |scan.samples| == M_FAULT_NUM
    ensures WellFormed(scans + [scan])
    ensures Derated(configs, HandledAfter(configs, scans + [scan])) <= Derated(configs, HandledAfter(configs, scans))
  {
    assert WellFormed(scans + [scan]);
    HandledGrows(configs, scans, scan);
    DeratedNeverGrows(configs, HandledAfter(configs, scans), Edges(RiseFlags(configs, scans + [scan]), |configs|));
  }
}
