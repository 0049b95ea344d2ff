/** State of charge of the whole bank, blended from those of its racks (in hundredths of a percent). */
module BankSoc {
  import opened MachineInts

  const RACK_MAX := 20
  const LOWER_LIMIT: uint16 := 3000
  const UPPER_LIMIT: uint16 := 9900
  const FULL: uint16 := 10000

  // ---------------------------------------------------------------- specification

  /** Least SOC, starting from full. */
  function MinSoc(socs: seq<uint16>): uint16 {
    if socs == [] then FULL
    else
      var least := MinSoc(socs[..|socs| - 1]);
      if socs[|socs| - 1] < least then socs[|socs| - 1] else least
  }

  /** Greatest SOC, starting from empty. */
  function MaxSoc(socs: seq<uint16>): uint16 {
    if socs == [] then 0
    else
      var most := MaxSoc(socs[..|socs| - 1]);
      if socs[|socs| - 1] > most then socs[|socs| - 1] else most
  }

  /** Between the limits, the weakest rack is stretched towards the strongest one. */
  function Blend(least: int, most: int, lower: int, upper: int): int
    requires lower < upper
  {
    if least <= lower then least
    else if most >= upper then most
    else (least - lower) * (upper - lower) / (upper + (least - lower) - most) + lower
  }

  function BankSocOf(socs: seq<uint16>): int {
    Blend(MinSoc(socs), MaxSoc(socs), LOWER_LIMIT, UPPER_LIMIT)
  }

  // ---------------------------------------------------------------- arithmetic of the blend

  lemma ProductSign(n: int, b: int)
    requires 0 < b
    ensures n * b < 0 <==> n < 0
    ensures n * b <= 0 <==> n <= 0
  {
  }

  lemma QuotientAtLeast(a: int, b: int, q: int)
    requires 0 < b && q * b <= a
    ensures q <= a / b
  {
    var n := q - a / b - 1;
    assert n * b == q * b - a / b * b - b;
    ProductSign(n, b);
  }

  lemma QuotientAtMost(a: int, b: int, q: int)
    requires 0 < b && a <= q * b
    ensures a / b <= q
  {
    var n := a / b - q;
    assert n * b == a / b * b - q * b;
    ProductSign(n, b);
  }

  lemma StretchIsAtLeast(x: int, d: int, r: int)
    requires 0 < x && 0 < d <= r
    ensures x <= x * r / d
  {
    ProductsGrow(d, r, x);
    QuotientAtLeast(x * r, d, x);
  }

  lemma StretchIsAtMost(x: int, y: int, r: int)
    requires 0 < x <= y < r
    ensures x * r / (r + x - y) <= y
  {
    var d, s, t := r + x - y, y - x, r - y;
    assert y * d - x * r == s * t;
    ProductsGrow(0, s, t);
    QuotientAtMost(x * r, d, y);
  }

  /** `x` and `y` are how far the weakest and the strongest rack are above the lower limit, of `r` in all. */
  lemma StretchIsBetween(x: int, y: int, r: int)
    requires 0 < x <= y < r
    ensures x <= x * r / (r + x - y) <= y
  {
    StretchIsAtLeast(x, r + x - y, r);
    StretchIsAtMost(x, y, r);
  }

  /** A rise of either rack never lowers the stretched value. */
  lemma StretchIsMonotone(x: int, y: int, x': int, y': int, r: int)
    requires 0 < x <= y < r && x <= x' && y <= y' && x' <= y' < r
    ensures x * r / (r + x - y) <= x' * r / (r + x' - y')
  {
    var d, d' := r + x - y, r + x' - y';
    var q := x * r / d;
    assert q * d <= x * r;
    StretchIsBetween(x, y, r);
    Scale(x, y, x', y', r, q);
    QuotientAtLeast(x' * r, d', q);
  }

  lemma Scale(x: int, y: int, x': int, y': int, r: int, q: int)
    requires x <= x' && y <= y' && 0 <= q <= r && q * (r + x - y) <= x * r
    ensures q * (r + x' - y') <= x' * r
  {
    var up, down := x' - x, y' - y;
    assert q * (r + x' - y') == q * (r + x - y) + q * up - q * down;
    ProductsGrow(q, r, up);
    ProductsGrow(0, q, down);
    assert x' * r == x * r + r * up;
  }

  lemma ProductsGrow(a: int, b: int, n: int)
    requires a <= b && 0 <= n
    ensures a * n <= b * n
  {
  }

  /** With the least of any racks at most the greatest, the blend lies between the two. */
  lemma BlendIsBetween(least: int, most: int, lower: int, upper: int)
    requires lower < upper && least <= most
    ensures least <= Blend(least, most, lower, upper) <= most
    ensures lower < least && most < upper ==> lower < Blend(least, most, lower, upper) < upper
  {
    if lower < least && most < upper {
      StretchIsBetween(least - lower, most - lower, upper - lower);
    }
  }

  /** Monotone in both, also across the borders of the three regions. */
  lemma BlendIsMonotone(least: int, most: int, least': int, most': int, lower: int, upper: int)
    requires lower < upper && least <= most && least' <= most' && least <= least' && most <= most'
    ensures Blend(least, most, lower, upper) <= Blend(least', most', lower, upper)
  {
    BlendIsBetween(least, most, lower, upper);
    BlendIsBetween(least', most', lower, upper);
    if lower < least && most' < upper {
      StretchIsMonotone(least - lower, most - lower, least' - lower, most' - lower, upper - lower);
    }
  }

  // ---------------------------------------------------------------- over all racks

  lemma {:induction false} MinIsLeast(socs: seq<uint16>)
    ensures MinSoc(socs) <= FULL && forall k :: 0 <= k < |socs| ==> MinSoc(socs) <= socs[k]
    ensures MinSoc(socs) == FULL || exists k :: 0 <= k < |socs| && socs[k] == MinSoc(socs)
  {
    if socs != [] {
      var n := |socs| - 1;
      MinIsLeast(socs[..n]);
      if MinSoc(socs) == MinSoc(socs[..n]) != FULL {
        var k :| 0 <= k < n && socs[..n][k] == MinSoc(socs);
        assert socs[k] == MinSoc(socs);
      }
    }
  }

  lemma {:induction false} MaxIsGreatest(socs: seq<uint16>)
    ensures forall k :: 0 <= k < |socs| ==> socs[k] <= MaxSoc(socs)
    ensures MaxSoc(socs) == 0 || exists k :: 0 <= k < |socs| && socs[k] == MaxSoc(socs)
  {
    if socs != [] {
      var n := |socs| - 1;
      MaxIsGreatest(socs[..n]);
      if MaxSoc(socs) == MaxSoc(socs[..n]) != 0 {
        var k :| 0 <= k < n && socs[..n][k] == MaxSoc(socs);
        assert socs[k] == MaxSoc(socs);
      }
    }
  }

  /** The blend lies between any bounds on the racks. */
  lemma BlendIsBetweenRacks(socs: seq<uint16>, low: uint16, high: uint16)
    requires socs != [] && forall k :: 0 <= k < |socs| ==> low <= socs[k] <= high
    ensures low <= BankSocOf(socs) <= high
  {
    MinIsLeast(socs);
    MaxIsGreatest(socs);
    assert low <= socs[0] <= high;
    BlendIsBetween(MinSoc(socs), MaxSoc(socs), LOWER_LIMIT, UPPER_LIMIT);
  }

  lemma {:induction false} ScansAreMonotone(socs: seq<uint16>, socs': seq<uint16>)
    requires |socs| == |socs'| && forall k :: 0 <= k < |socs| ==> socs[k] <= socs'[k]
    ensures MinSoc(socs) <= MinSoc(socs') && MaxSoc(socs) <= MaxSoc(socs')
  {
    if socs != [] {
      ScansAreMonotone(socs[..|socs| - 1], socs'[..|socs'| - 1]);
    }
  }

  /** No rack's rise lowers the blend. */
  lemma BlendIsMonotoneInRacks(socs: seq<uint16>, socs': seq<uint16>)
    requires |socs| == |socs'| > 0 && forall k :: 0 <= k < |socs| ==> socs[k] <= socs'[k]
    ensures BankSocOf(socs) <= BankSocOf(socs')
  {
    ScansAreMonotone(socs, socs');
    MinIsLeast(socs);
    MaxIsGreatest(socs);
    MinIsLeast(socs');
    MaxIsGreatest(socs');
    assert MinSoc(socs) <= socs[0] <= MaxSoc(socs) && MinSoc(socs') <= socs'[0] <= MaxSoc(socs');
    BlendIsMonotone(MinSoc(socs), MaxSoc(socs), MinSoc(socs'), MaxSoc(socs'), LOWER_LIMIT, UPPER_LIMIT);
  }

  lemma FloorOfQuotient(a: int, d: int, q: int)
    requires 0 < d && q == a / d
    ensures q * d <= a < (q + 1) * d
  {
    assert a == d * q + a % d;
    assert (q + 1) * d == d * q + d;
  }

  /** The formula in numbers, for racks whose least and greatest values are `lo` and `hi`: the least one up to 30 %, the
      greatest one from 99 %, and in between the least one's distance from 30 %, stretched and rounded down. */
  lemma BlendInNumbers(socs: seq<uint16>, lo: uint16, hi: uint16)
    requires lo in socs && hi in socs && lo <= 10000 && forall k :: 0 <= k < |socs| ==> lo <= socs[k] <= hi
    ensures lo <= 3000 ==> BankSocOf(socs) == lo
    ensures lo > 3000 && hi >= 9900 ==> BankSocOf(socs) == hi
    ensures lo > 3000 && hi < 9900 ==>
      var above, d := BankSocOf(socs) - 3000, 9900 + (lo - 3000) - hi;
      above * d <= (lo - 3000) * 6900 < (above + 1) * d
  {
    MinIsLeast(socs);
    MaxIsGreatest(socs);
    assert MinSoc(socs) == lo && MaxSoc(socs) == hi;
    if lo > 3000 && hi < 9900 {
      FloorOfQuotient((lo - 3000) * 6900, 9900 + (lo - 3000) - hi, BankSocOf(socs) - 3000);
    }
  }

  /** The scans of no racks leave their initial values in place, and the blend makes a charge level out of them. */
  lemma BlendOfNoRacks()
    ensures BankSocOf([]) == 5857
  {
    assert 7000 * 6900 / 16900 == 2857;
  }

  // ---------------------------------------------------------------- one call

  datatype Record = Record(rbmsCount: uint16, rbmsSoc: seq<uint16>, socLowerLimit: uint16, socUpperLimit: uint16,
                           socFormulaNumerator: uint16, bankSoc: uint16)

  /** The zeroed record that the program starts with. */
  function InitialRecord(): Record {
    Record(0, seq(RACK_MAX, _ => 0), 0, 0, 0, 0)
  }

  /** The record after taking over count and values of the racks. */
  function Loaded(r: Record, racks: seq<uint16>): Record
    requires |racks| <= RACK_MAX == |r.rbmsSoc|
  {
    r.(rbmsCount := |racks|, rbmsSoc := racks + r.rbmsSoc[|racks|..],
       socLowerLimit := LOWER_LIMIT, socUpperLimit := UPPER_LIMIT, socFormulaNumerator := FULL)
  }

  /** A limit decides the result. */
  predicate AtLimit(racks: seq<uint16>) {
    MinSoc(racks) <= LOWER_LIMIT || MaxSoc(racks) >= UPPER_LIMIT
  }

  lemma BlendIsLevel(racks: seq<uint16>)
    ensures 0 <= BankSocOf(racks) < U16_SPAN
  {
    if !AtLimit(racks) {
      BlendFits(racks);
    }
  }

  /** Record and result of a call that finds `racks` in the data base: nothing happens unless the count kept from
      earlier is above zero. */
  function Statistics(r: Record, racks: seq<uint16>): (Record, uint16)
    requires |racks| <= RACK_MAX == |r.rbmsSoc|
  {
    if r.rbmsCount == 0 then (r, 0)
    else
      BlendIsLevel(racks);
      var soc: uint16 := BankSocOf(racks);
      (if AtLimit(racks) then Loaded(r, racks) else Loaded(r, racks).(bankSoc := soc), soc)
  }

  lemma AtLimitInNumbers(racks: seq<uint16>)
    ensures AtLimit(racks) <==> exists k :: 0 <= k < |racks| && (racks[k] <= 3000 || racks[k] >= 9900)
  {
    MinIsLeast(racks);
    MaxIsGreatest(racks);
  }

  /** What a call with a kept count above zero leaves: the racks, the limits, and the result unless a rack is at or
      beyond a limit. */
  lemma RecordInNumbers(r: Record, racks: seq<uint16>)
    requires |racks| <= RACK_MAX == |r.rbmsSoc| && r.rbmsCount != 0
    ensures var (after, soc) := Statistics(r, racks);
      && after.rbmsCount == |racks| && after.rbmsSoc == racks + r.rbmsSoc[|racks|..]
      && after.socLowerLimit == 3000 && after.socUpperLimit == 9900 && after.socFormulaNumerator == 10000
      && after.bankSoc == if exists k :: 0 <= k < |racks| && (racks[k] <= 3000 || racks[k] >= 9900)
                          then r.bankSoc else soc
  {
    AtLimitInNumbers(racks);
  }

  /** The result lies between the racks exactly when the kept count is above zero, or the bound is no bound. */
  lemma BankIsBetweenRacksIff(r: Record, racks: seq<uint16>, low: uint16, high: uint16)
    requires |racks| <= RACK_MAX == |r.rbmsSoc|
    requires racks != [] && forall k :: 0 <= k < |racks| ==> low <= racks[k] <= high
    ensures low <= Statistics(r, racks).1 <= high <==> r.rbmsCount != 0 || low == 0
  {
    BlendIsBetweenRacks(racks, low, high);
    assert low <= racks[0] <= high;
  }

  /** When all racks agree, the bank agrees with them exactly when the kept count is above zero, or they are empty. */
  lemma BankOfEqualRacksIff(r: Record, racks: seq<uint16>, soc: uint16)
    requires |racks| <= RACK_MAX == |r.rbmsSoc|
    requires racks != [] && forall k :: 0 <= k < |racks| ==> racks[k] == soc
    ensures Statistics(r, racks).1 == soc <==> r.rbmsCount != 0 || soc == 0
  {
    BlendIsBetweenRacks(racks, soc, soc);
  }

  /** No rack's rise lowers the result, unless the kept count becomes zero. */
  lemma BankIsMonotone(r: Record, racks: seq<uint16>, r': Record, racks': seq<uint16>)
    requires |racks| == |racks'| <= RACK_MAX == |r.rbmsSoc| == |r'.rbmsSoc|
    requires racks != [] && forall k :: 0 <= k < |racks| ==> racks[k] <= racks'[k]
    requires r.rbmsCount != 0 ==> r'.rbmsCount != 0
    ensures Statistics(r, racks).1 <= Statistics(r', racks').1
  {
    BlendIsMonotoneInRacks(racks, racks');
  }

  // ---------------------------------------------------------------- the calls of a program

  ghost predicate FitTable(calls: seq<seq<uint16>>) {
    forall i :: 0 <= i < |calls| ==> |calls[i]| <= RACK_MAX
  }

  /** The record after calls that found `calls` in the data base, one after the other. */
  ghost function RecordAfter(r: Record, calls: seq<seq<uint16>>): (after: Record)
    requires |r.rbmsSoc| == RACK_MAX && FitTable(calls)
    ensures |after.rbmsSoc| == RACK_MAX
  {
    if calls == [] then r
    else Statistics(RecordAfter(r, calls[..|calls| - 1]), calls[|calls| - 1]).0
  }

  /** What call `i` returns. */
  ghost function ResultOf(r: Record, calls: seq<seq<uint16>>, i: nat): uint16
    requires |r.rbmsSoc| == RACK_MAX && FitTable(calls) && i < |calls|
  {
    Statistics(RecordAfter(r, calls[..i]), calls[i]).1
  }

  /** The count is kept above zero exactly as long as it starts so and no call finds zero racks. */
  lemma {:induction false} CountIsKept(r: Record, calls: seq<seq<uint16>>)
    requires |r.rbmsSoc| == RACK_MAX && FitTable(calls)
    ensures RecordAfter(r, calls).rbmsCount != 0 <==>
              r.rbmsCount != 0 && forall i :: 0 <= i < |calls| ==> calls[i] != []
  {
    if calls != [] {
      var n := |calls| - 1;
      CountIsKept(r, calls[..n]);
      assert forall i :: 0 <= i < n ==> calls[..n][i] == calls[i];
    }
  }

  /** Every result of every run, from any record: the blend of the racks, up to and including the first call that finds
      none, if the count starts above zero; and 0 otherwise. */
  lemma ResultsOfRun(r: Record, calls: seq<seq<uint16>>, i: nat)
    requires |r.rbmsSoc| == RACK_MAX && FitTable(calls) && i < |calls|
    ensures ResultOf(r, calls, i)
            == if r.rbmsCount != 0 && forall j :: 0 <= j < i ==> calls[j] != [] then BankSocOf(calls[i]) else 0
  {
    CountIsKept(r, calls[..i]);
  }

  /** From the record that the program starts with, no call ever does anything: the count that it tests is written
      behind the test only. */
  lemma {:induction false} NothingIsComputed(calls: seq<seq<uint16>>)
    requires FitTable(calls)
    ensures RecordAfter(InitialRecord(), calls) == InitialRecord()
    ensures forall i :: 0 <= i < |calls| ==> ResultOf(InitialRecord(), calls, i) == 0
  {
    if calls != [] {
      NothingIsComputed(calls[..|calls| - 1]);
    }
    forall i | 0 <= i < |calls| ensures ResultOf(InitialRecord(), calls, i) == 0 {
      ResultsOfRun(InitialRecord(), calls, i);
    }
  }

  /** Two racks at half charge: the blend says so, the program says empty. */
  lemma HalfFullReadsEmpty()
    ensures BankSocOf([5000, 5000]) == 5000 && Statistics(InitialRecord(), [5000, 5000]).1 == 0
  {
    BlendIsBetweenRacks([5000, 5000], 5000, 5000);
  }

  // ---------------------------------------------------------------- the configuration record

  class SocConfig {
    var rbmsCount: uint16
    const rbmsSoc: array<uint16>
    var socLowerLimit: uint16
    var socUpperLimit: uint16
    var socFormulaNumerator: uint16
    var bankSoc: uint16

    ghost predicate Sized() {
      rbmsSoc.Length == RACK_MAX
    }

    ghost function View(): Record
      reads this, rbmsSoc
    {
      Record(rbmsCount, rbmsSoc[..], socLowerLimit, socUpperLimit, socFormulaNumerator, bankSoc)
    }

    constructor ()
      ensures Sized() && View() == InitialRecord() && fresh(rbmsSoc)
    {
      rbmsSoc := new uint16[RACK_MAX](_ => 0);
      rbmsCount, bankSoc := 0, 0;
      socLowerLimit, socUpperLimit, socFormulaNumerator := 0, 0, 0;
    }

    /** Takes the racks' values from the data base. */
    method BmsUpdateSocCalcData(racks: seq<uint16>)
      requires Sized() && |racks| <= RACK_MAX
      modifies `rbmsCount, rbmsSoc, `socLowerLimit, `socUpperLimit, `socFormulaNumerator
      ensures View() == Loaded(old(View()), racks)
    {
      rbmsCount := |racks|;
      for i := 0 to rbmsCount
        invariant rbmsSoc[..i] == racks[..i] && rbmsSoc[i..] == old(rbmsSoc[..])[i..]
        invariant rbmsCount == |racks|
      {
        rbmsSoc[i] := racks[i];
      }
      socLowerLimit := 3000;
      socUpperLimit := 9900;
      socFormulaNumerator := 10000;
    }

    /** Least and greatest SOC of the record. */
    method ScanRacks() returns (minSoc: uint16, maxSoc: uint16)
      requires Sized() && rbmsCount <= RACK_MAX
      ensures minSoc == MinSoc(rbmsSoc[..rbmsCount]) && maxSoc == MaxSoc(rbmsSoc[..rbmsCount])
    {
      minSoc, maxSoc := 10000, 0;
      for i := 0 to rbmsCount
        invariant minSoc == MinSoc(rbmsSoc[..i]) && maxSoc == MaxSoc(rbmsSoc[..i])
      {
        assert rbmsSoc[..i + 1][..i] == rbmsSoc[..i];
        if rbmsSoc[i] < minSoc {
          minSoc := rbmsSoc[i];
        }
        if rbmsSoc[i] > maxSoc {
          maxSoc := rbmsSoc[i];
        }
      }
    }

    /** Recomputes the bank's SOC from the racks now in the data base. The count tested for zero is the one of the
        previous update, and the stored value is left alone when a limit decides the result. */
    method BmsSocStatistics(racks: seq<uint16>) returns (soc: uint16)
      requires Sized() && |racks| <= RACK_MAX
      modifies this, rbmsSoc
      ensures (View(), soc) == Statistics(old(View()), racks)
    {
      if rbmsCount == 0 {
        return 0;
      }
      BmsUpdateSocCalcData(racks);
      var minSoc, maxSoc := ScanRacks();
      if minSoc <= socLowerLimit {
        return minSoc;
      }
      if maxSoc >= socUpperLimit {
        return maxSoc;
      }
      BlendFits(racks);
      var socRange: uint16 := socUpperLimit - socLowerLimit;
      var product: int32 := (minSoc - socLowerLimit) * socRange;
      var divisor: int32 := socUpperLimit + (minSoc - socLowerLimit) - maxSoc;
      soc := product / divisor + socLowerLimit;
      bankSoc := soc;
    }
  }

  /** The periodic caller: it owns the only record and passes it to nothing else. Every level it publishes is 0. */
  method PublishBankSoc(calls: seq<seq<uint16>>) returns (published: seq<uint16>)
    requires FitTable(calls)
    ensures |published| == |calls| && forall i :: 0 <= i < |published| ==> published[i] == 0
  {
    var config := new SocConfig();
    published := [];
    for i := 0 to |calls|
      invariant config.Sized() && config.View() == InitialRecord()
      invariant |published| == i && forall k :: 0 <= k < i ==> published[k] == 0
    {
      var bankSoc := config.BmsSocStatistics(calls[i]);
      published := published + [bankSoc];
    }
  }

  /** No intermediate leaves 32 bits, and the result is a 16-bit level, also with no racks at all. */
  lemma BlendFits(socs: seq<uint16>)
    requires LOWER_LIMIT < MinSoc(socs) && MaxSoc(socs) < UPPER_LIMIT
    ensures var x, range := MinSoc(socs) - LOWER_LIMIT, UPPER_LIMIT - LOWER_LIMIT;
      && 0 < x * range < 0x8000_0000 && 0 < UPPER_LIMIT + x - MaxSoc(socs) < 0x8000_0000
      && 0 <= BankSocOf(socs) < UPPER_LIMIT
  {
    MinIsLeast(socs);
    MaxIsGreatest(socs);
    if socs == [] {
      BlendOfNoRacks();
    } else {
      assert MinSoc(socs) <= socs[0] <= MaxSoc(socs);
      BlendIsBetween(MinSoc(socs), MaxSoc(socs), LOWER_LIMIT, UPPER_LIMIT);
    }
  }
}
