/** The elapsed-realtime estimator of gps/core/LocApiBase.cpp. Times are in nanoseconds. */
module Estimator {
  import opened Wrappers

  /** A reading of the two clocks: wall clock and time since boot. */
  datatype Clocks = Clocks(utc: int, boot: int)

  /** One call: `clocks` is None when the clocks could not be read close together. */
  datatype Fix = Fix(data: int, trusted: bool, tbf: int, clocks: Option<Clocks>)

  datatype Memory = Memory(diff: int, prevUtc: int, prevBoot: int, prevData: int, threshold: int)

  const STABLE_AFTER := 5
  const FRESH := Memory(0, 0, 0, 0, STABLE_AFTER)

  /** The data time did not advance by the time between fixes. */
  predicate Jumped(m: Memory, f: Fix) {
    0 < f.tbf && f.tbf != f.data - m.prevData
  }

  predicate Counts(f: Fix) { f.trusted && f.clocks.Some? }

  function Step(m: Memory, travel: int, f: Fix): (Memory, int) {
    if f.clocks.None? then (m, -1)
    else
      var Clocks(utc, boot) := f.clocks.value;
      if !f.trusted then (m, boot - travel)
      else
        var threshold := if Jumped(m, f) then STABLE_AFTER else m.threshold;
        var diff :=
          if threshold == 0 then utc - f.data - travel
          else if threshold < 0 then m.diff + (utc - boot) - (m.prevUtc - m.prevBoot)
          else m.diff;
        var taken := if threshold < 0 then utc - f.data - diff else travel;
        (Memory(diff, utc, boot, f.data, threshold - 1), boot - taken)
  }

  class ElapsedRealtimeEstimator {
    var currentClockDiff: int
    var prevUtcTimeNanos: int
    var prevBootTimeNanos: int
    var fixTimeStablizationThreshold: int
    var prevDataTimeNanos: int
    const initialTravelTime: int

    ghost function Value(): Memory
      reads this
    {
      Memory(currentClockDiff, prevUtcTimeNanos, prevBootTimeNanos, prevDataTimeNanos,
             fixTimeStablizationThreshold)
    }

    constructor (travelTimeNanosEstimate: int)
      ensures Value() == FRESH && initialTravelTime == travelTimeNanosEstimate
    {
      initialTravelTime := travelTimeNanosEstimate;
      new;
      Reset();
    }

    method Reset()
      modifies this
      ensures Value() == FRESH
    {
      currentClockDiff := 0;
      prevDataTimeNanos := 0;
      prevUtcTimeNanos := 0;
      prevBootTimeNanos := 0;
      fixTimeStablizationThreshold := 5;
    }

    method GetElapsedRealtimeEstimateNanos(f: Fix) returns (estimate: int)
      modifies this
      ensures (Value(), estimate) == Step(old(Value()), initialTravelTime, f)
    {
      var currentTravelTimeNanos := initialTravelTime;
      if f.clocks.None? {
        return -1;
      }
      var sinceBootTimeNanos := f.clocks.value.boot;
      if f.trusted {
        if f.tbf > 0 && f.tbf != f.data - prevDataTimeNanos {
          fixTimeStablizationThreshold := 5;
        }
        var currentTimeNanos := f.clocks.value.utc;
        if fixTimeStablizationThreshold == 0 {
          currentTravelTimeNanos := initialTravelTime;
          currentClockDiff := currentTimeNanos - f.data - currentTravelTimeNanos;
        } else if fixTimeStablizationThreshold < 0 {
          currentClockDiff := currentClockDiff + (currentTimeNanos - sinceBootTimeNanos)
                              - (prevUtcTimeNanos - prevBootTimeNanos);
          currentTravelTimeNanos := currentTimeNanos - f.data - currentClockDiff;
        }
        prevUtcTimeNanos := currentTimeNanos;
        prevBootTimeNanos := sinceBootTimeNanos;
        prevDataTimeNanos := f.data;
        fixTimeStablizationThreshold := fixTimeStablizationThreshold - 1;
      }
      estimate := sinceBootTimeNanos - currentTravelTimeNanos;
    }
  }

  // ---------- Streams of fixes ----------

  function Run(m: Memory, travel: int, fixes: seq<Fix>): (Memory, seq<int>)
    decreases |fixes|
  {
    if fixes == [] then (m, [])
    else
      var (m1, r) := Step(m, travel, fixes[0]);
      var (m2, rs) := Run(m1, travel, fixes[1..]);
      (m2, [r] + rs)
  }

  predicate Steady(m: Memory, travel: int, fixes: seq<Fix>)
    decreases |fixes|
  {
    fixes == [] ||
    (&& (Counts(fixes[0]) ==> !Jumped(m, fixes[0]))
     && Steady(Step(m, travel, fixes[0]).0, travel, fixes[1..]))
  }

  /** The boot time of data time zero; the sum that telescopes. */
  function Offset(m: Memory): int { m.diff - (m.prevUtc - m.prevBoot) }

  /** The fix at which the threshold is 0 sets the offset from itself alone. */
  lemma CalibrationSetsOffset(m: Memory, travel: int, f: Fix)
    requires m.threshold == 0 && Counts(f) && !Jumped(m, f)
    ensures var (m', r) := Step(m, travel, f);
      && m'.threshold < 0
      && Offset(m') == f.clocks.value.boot - f.data - travel
      && r == f.data + Offset(m')
  {
    var Clocks(utc, boot) := f.clocks.value;
    assert Step(m, travel, f).0.diff == utc - f.data - travel;
  }

  /** Until the next jump every trusted fix maps its data time by the same offset, with untrusted
    * fixes and unreadable clocks in between. */
  lemma {:induction false} ClosedForm(m: Memory, travel: int, fixes: seq<Fix>, i: nat)
    requires m.threshold < 0 && Steady(m, travel, fixes) && i < |fixes|
    ensures |Run(m, travel, fixes).1| == |fixes|
    ensures Counts(fixes[i]) ==> Run(m, travel, fixes).1[i] == fixes[i].data + Offset(m)
    ensures Offset(Run(m, travel, fixes).0) == Offset(m)
    decreases |fixes|
  {
    var m1 := Step(m, travel, fixes[0]).0;
    assert Offset(m1) == Offset(m) && m1.threshold < 0;
    if |fixes| == 1 {
      assert Run(m1, travel, fixes[1..]) == (m1, []);
    } else {
      ClosedForm(m1, travel, fixes[1..], if i == 0 then 0 else i - 1);
    }
  }

  /** From the calibrating fix on, differences of estimates are differences of data times. */
  lemma EstimatesFollowData(m: Memory, travel: int, fixes: seq<Fix>, i: nat)
    requires m.threshold == 0 && Steady(m, travel, fixes) && i < |fixes|
    requires Counts(fixes[0]) && Counts(fixes[i])
    ensures var rs := Run(m, travel, fixes).1;
      && |rs| == |fixes|
      && rs[0] == fixes[0].clocks.value.boot - travel
      && rs[i] - rs[0] == fixes[i].data - fixes[0].data
  {
    CalibrationSetsOffset(m, travel, fixes[0]);
    var m1 := Step(m, travel, fixes[0]).0;
    if |fixes| == 1 {
      assert Run(m1, travel, fixes[1..]) == (m1, []);
    } else {
      ClosedForm(m1, travel, fixes[1..], if i == 0 then 0 else i - 1);
    }
  }

  /** Each trusted fix without a jump brings the calibration one fix nearer. */
  lemma {:induction false} SteadyCounts(m: Memory, travel: int, fixes: seq<Fix>)
    requires Steady(m, travel, fixes)
    ensures Run(m, travel, fixes).0.threshold == m.threshold - Trusted(fixes)
    decreases |fixes|
  {
    if fixes != [] {
      SteadyCounts(Step(m, travel, fixes[0]).0, travel, fixes[1..]);
    }
  }

  function Trusted(fixes: seq<Fix>): nat
    decreases |fixes|
  {
    if fixes == [] then 0 else (if Counts(fixes[0]) then 1 else 0) + Trusted(fixes[1..])
  }

  /** With jumps anywhere, while not more trusted fixes have come than the threshold asks for, each
    * estimate is the boot clock less the initial travel time; without clocks it is -1. */
  lemma {:induction false} UncalibratedReads(m: Memory, travel: int, fixes: seq<Fix>, i: nat)
    requires i < |fixes| && Trusted(fixes[..i]) <= m.threshold <= STABLE_AFTER
    ensures |Run(m, travel, fixes).1| == |fixes|
    ensures Run(m, travel, fixes).1[i] == match fixes[i].clocks
              case None => -1
              case Some(clocks) => clocks.boot - travel
    decreases |fixes|
  {
    var m1, tail := Step(m, travel, fixes[0]).0, fixes[1..];
    RunLength(m1, travel, tail);
    if i > 0 {
      assert fixes[..i][0] == fixes[0] && fixes[..i][1..] == tail[..i - 1];
      UncalibratedReads(m1, travel, tail, i - 1);
    }
  }

  lemma {:induction false} RunLength(m: Memory, travel: int, fixes: seq<Fix>)
    ensures |Run(m, travel, fixes).1| == |fixes|
    decreases |fixes|
  {
    if fixes != [] { RunLength(Step(m, travel, fixes[0]).0, travel, fixes[1..]); }
  }

  /** A jump puts calibration off: after it, the fix that calibrates is the one with exactly four
    * trusted fixes in between. */
  lemma RecalibratesAfterJump(m: Memory, travel: int, jump: Fix, fixes: seq<Fix>)
    requires Counts(jump) && Jumped(m, jump)
    requires Steady(Step(m, travel, jump).0, travel, fixes)
    ensures Run(Step(m, travel, jump).0, travel, fixes).0.threshold == 0 <==> Trusted(fixes) == 4
  {
    SteadyCounts(Step(m, travel, jump).0, travel, fixes);
  }

  // ---------- The wall clock does not matter ----------

  /** The same fixes under another wall clock. */
  predicate SameButUtc(f: Fix, g: Fix) {
    && f.data == g.data && f.trusted == g.trusted && f.tbf == g.tbf
    && f.clocks.Some? == g.clocks.Some?
    && (f.clocks.Some? ==> f.clocks.value.boot == g.clocks.value.boot)
  }

  predicate Alike(m: Memory, n: Memory) {
    && m.threshold == n.threshold && m.prevData == n.prevData
    && (m.threshold < 0 ==> Offset(m) == Offset(n))
  }

  lemma StepAlike(m: Memory, n: Memory, travel: int, f: Fix, g: Fix)
    requires Alike(m, n) && SameButUtc(f, g)
    ensures Alike(Step(m, travel, f).0, Step(n, travel, g).0)
    ensures Step(m, travel, f).1 == Step(n, travel, g).1
  {
    if Counts(f) {
      var threshold := if Jumped(m, f) then STABLE_AFTER else m.threshold;
      if threshold < 0 {
        assert Step(m, travel, f).1 == f.data + Offset(m);
        assert Step(n, travel, g).1 == g.data + Offset(n);
      }
    }
  }

  /** Whatever the wall clock does, also across jumps and recalibrations, the estimates are the same. */
  lemma {:induction false} WallClockIrrelevant(m: Memory, n: Memory, travel: int, fs: seq<Fix>, gs: seq<Fix>)
    requires Alike(m, n) && |fs| == |gs|
    requires forall i :: 0 <= i < |fs| ==> SameButUtc(fs[i], gs[i])
    ensures Run(m, travel, fs).1 == Run(n, travel, gs).1
    decreases |fs|
  {
    if fs != [] {
      StepAlike(m, n, travel, fs[0], gs[0]);
      WallClockIrrelevant(Step(m, travel, fs[0]).0, Step(n, travel, gs[0]).0, travel, fs[1..], gs[1..]);
    }
  }

  // ---------- From the fixes alone ----------

  /** The data time of the latest trusted fix with clocks. */
  function LastData(fixes: seq<Fix>): Option<int> {
    if fixes == [] then None
    else if fixes[|fixes| - 1].trusted && fixes[|fixes| - 1].clocks.Some? then Some(fixes[|fixes| - 1].data)
    else LastData(fixes[..|fixes| - 1])
  }

  /** The time between fixes is unknown, or the data time advanced by just that since the latest trusted
    * fix; before the first one the data time counts from 0. */
  predicate InPace(before: seq<Fix>, f: Fix) {
    f.tbf <= 0 || f.data == (match LastData(before) case None => 0 case Some(d) => d) + f.tbf
  }

  /** Every trusted fix with clocks after the first one is in pace. */
  predicate Regular(fixes: seq<Fix>) {
    forall i :: 0 <= i < |fixes| && Counts(fixes[i]) && LastData(fixes[..i]).Some? ==> InPace(fixes[..i], fixes[i])
  }

  function Memo(travel: int, fixes: seq<Fix>): Memory { Run(FRESH, travel, fixes).0 }

  lemma {:induction false} RunSnoc(m: Memory, travel: int, fixes: seq<Fix>, f: Fix)
    ensures var (before, after) := (Run(m, travel, fixes), Run(m, travel, fixes + [f]));
            var (m', r) := Step(before.0, travel, f);
            after == (m', before.1 + [r])
    decreases |fixes|
  {
    if fixes == [] {
      var (m', r) := Step(m, travel, f);
      var none: seq<int> := [];
      assert fixes + [f] == [f] && [f][0] == f && [f][1..] == [];
      assert Run(m', travel, []) == (m', none);
      assert [r] + none == [r] && none + [r] == [r];
    } else {
      RunSnoc(Step(m, travel, fixes[0]).0, travel, fixes[1..], f);
      assert (fixes + [f])[1..] == fixes[1..] + [f];
      var rest := Run(Step(m, travel, fixes[0]).0, travel, fixes[1..]);
      var r0, r := Step(m, travel, fixes[0]).1, Step(rest.0, travel, f).1;
      assert [r0] + (rest.1 + [r]) == [r0] + rest.1 + [r];
    }
  }

  lemma {:induction false} TrustedSnoc(fixes: seq<Fix>, f: Fix)
    ensures Trusted(fixes + [f]) == Trusted(fixes) + if Counts(f) then 1 else 0
    decreases |fixes|
  {
    if fixes != [] {
      TrustedSnoc(fixes[1..], f);
      assert (fixes + [f])[1..] == fixes[1..] + [f];
    } else {
      assert fixes + [f] == [f] && [f][1..] == [];
    }
  }

  /** The estimate of fix i is a step from the memory of the fixes before it. */
  lemma {:induction false} EstimateAt(travel: int, fixes: seq<Fix>, i: nat)
    requires i < |fixes|
    ensures |Run(FRESH, travel, fixes).1| == |fixes|
    ensures Run(FRESH, travel, fixes).1[i] == Step(Memo(travel, fixes[..i]), travel, fixes[i]).1
    decreases |fixes|
  {
    var front, last := fixes[..|fixes| - 1], fixes[|fixes| - 1];
    assert fixes == front + [last];
    RunLength(FRESH, travel, front);
    RunSnoc(FRESH, travel, front, last);
    if i < |front| {
      EstimateAt(travel, front, i);
      assert front[..i] == fixes[..i];
    } else {
      assert fixes[..i] == front;
    }
  }

  /** What the memory holds after regular fixes: the latest data time, and 5 less their number. */
  lemma {:induction false} MemoryOf(travel: int, fixes: seq<Fix>)
    requires Regular(fixes)
    ensures var m := Memo(travel, fixes);
      && m.threshold == STABLE_AFTER - Trusted(fixes)
      && m.prevData == (match LastData(fixes) case None => 0 case Some(d) => d)
      && (LastData(fixes).None? <==> Trusted(fixes) == 0)
    decreases |fixes|
  {
    if fixes != [] {
      var front, last := fixes[..|fixes| - 1], fixes[|fixes| - 1];
      assert fixes == front + [last];
      forall i | 0 <= i < |front| && Counts(front[i]) && LastData(front[..i]).Some?
        ensures InPace(front[..i], front[i])
      {
        assert front[..i] == fixes[..i] && front[i] == fixes[i];
      }
      MemoryOf(travel, front);
      RunSnoc(FRESH, travel, front, last);
      TrustedSnoc(front, last);
      assert fixes[..|front|] == front;
    }
  }

  lemma RegularFront(fixes: seq<Fix>)
    requires Regular(fixes) && fixes != []
    ensures Regular(fixes[..|fixes| - 1])
  {
    var front := fixes[..|fixes| - 1];
    forall i | 0 <= i < |front| && Counts(front[i]) && LastData(front[..i]).Some?
      ensures InPace(front[..i], front[i])
    {
      assert front[..i] == fixes[..i] && front[i] == fixes[i];
    }
  }

  /** The boot time of data time zero, by the sixth trusted fix. */
  function OffsetBy(travel: int, f: Fix): int
    requires f.clocks.Some?
  {
    f.clocks.value.boot - f.data - travel
  }

  lemma {:induction false} OffsetStays(travel: int, fixes: seq<Fix>, k: nat)
    requires Regular(fixes) && k < |fixes| && Counts(fixes[k]) && Trusted(fixes[..k]) == STABLE_AFTER
    ensures var m := Memo(travel, fixes); m.threshold < 0 && Offset(m) == OffsetBy(travel, fixes[k])
    decreases |fixes|
  {
    var front, last := fixes[..|fixes| - 1], fixes[|fixes| - 1];
    assert fixes == front + [last] && fixes[..|front|] == front;
    RegularFront(fixes);
    MemoryOf(travel, front);
    RunSnoc(FRESH, travel, front, last);
    if k == |front| {
      CalibrationSetsOffset(Memo(travel, front), travel, last);
    } else {
      assert front[..k] == fixes[..k];
      OffsetStays(travel, front, k);
    }
  }

  lemma {:induction false} RegularPrefix(fixes: seq<Fix>, n: nat)
    requires Regular(fixes) && n <= |fixes|
    ensures Regular(fixes[..n])
    decreases |fixes|
  {
    if n == |fixes| {
      assert fixes[..n] == fixes;
    } else {
      RegularFront(fixes);
      RegularPrefix(fixes[..|fixes| - 1], n);
      assert fixes[..|fixes| - 1][..n] == fixes[..n];
    }
  }

  /** When each trusted fix is in pace with the one before, whatever comes in between: until the sixth
    * the estimate is the boot clock less the initial travel time, and from the sixth on it is the data
    * time plus an offset that the sixth alone gives. */
  lemma SixthCalibrates(travel: int, fixes: seq<Fix>, i: nat, k: nat)
    requires Regular(fixes) && k <= i < |fixes|
    ensures |Run(FRESH, travel, fixes).1| == |fixes|
    ensures var r := Run(FRESH, travel, fixes).1[i];
      && (fixes[i].clocks.None? ==> r == -1)
      && (fixes[i].clocks.Some? && (!fixes[i].trusted || Trusted(fixes[..i]) <= 5) ==>
            r == fixes[i].clocks.value.boot - travel)
      && (Counts(fixes[i]) && Counts(fixes[k]) && Trusted(fixes[..k]) == 5 ==>
            r == fixes[i].data + OffsetBy(travel, fixes[k]))
  {
    EstimateAt(travel, fixes, i);
    RegularPrefix(fixes, i);
    MemoryOf(travel, fixes[..i]);
    if Counts(fixes[i]) && Counts(fixes[k]) && Trusted(fixes[..k]) == 5 && k < i {
      assert fixes[..i][..k] == fixes[..k];
      OffsetStays(travel, fixes[..i], k);
    }
  }

  /** From five trusted fixes on there is a sixth. */
  lemma {:induction false} SixthFix(fixes: seq<Fix>, i: nat) returns (k: nat)
    requires i < |fixes| && Counts(fixes[i]) && 5 <= Trusted(fixes[..i])
    ensures k <= i && Counts(fixes[k]) && Trusted(fixes[..k]) == 5
  {
    k := i;
    while Trusted(fixes[..k]) > 5 || !Counts(fixes[k])
      invariant k <= i && 5 <= Trusted(fixes[..k])
      invariant Trusted(fixes[..k]) > 5 || Counts(fixes[k])
      decreases k
    {
      assert k > 0;
      k := k - 1;
      assert fixes[..k + 1] == fixes[..k] + [fixes[k]];
      TrustedSnoc(fixes[..k], fixes[k]);
    }
  }

  lemma {:induction false} RunConcat(m: Memory, travel: int, a: seq<Fix>, b: seq<Fix>)
    ensures Run(m, travel, a + b).1 == Run(m, travel, a).1 + Run(Run(m, travel, a).0, travel, b).1
    decreases |a|
  {
    if a == [] {
      assert a + b == b;
    } else {
      assert (a + b)[1..] == a[1..] + b;
      RunConcat(Step(m, travel, a[0]).0, travel, a[1..], b);
    }
  }

  lemma {:induction false} LatestDataKept(travel: int, fixes: seq<Fix>)
    ensures Memo(travel, fixes).prevData == match LastData(fixes) case None => 0 case Some(d) => d
    decreases |fixes|
  {
    if fixes != [] {
      var front, last := fixes[..|fixes| - 1], fixes[|fixes| - 1];
      assert fixes == front + [last];
      LatestDataKept(travel, front);
      RunSnoc(FRESH, travel, front, last);
    }
  }

  /** After any fixes whatever, a trusted fix out of pace starts all over: from it on the estimates are
    * those of an estimator that has seen nothing before it. */
  lemma OutOfPaceStartsOver(travel: int, before: seq<Fix>, fixes: seq<Fix>)
    requires fixes != [] && Counts(fixes[0]) && !InPace(before, fixes[0])
    ensures var rs := Run(FRESH, travel, before + fixes).1;
            |before| <= |rs| && rs[|before|..] == Run(FRESH, travel, fixes).1
  {
    var m, f := Memo(travel, before), fixes[0];
    RunConcat(FRESH, travel, before, fixes);
    RunLength(FRESH, travel, before);
    LatestDataKept(travel, before);
    assert Step(m, travel, f).1 == Step(FRESH, travel, f).1;
    var m1, n1 := Step(m, travel, f).0, Step(FRESH, travel, f).0;
    assert Alike(m1, n1);
    WallClockIrrelevant(m1, n1, travel, fixes[1..], fixes[1..]);
  }
}
