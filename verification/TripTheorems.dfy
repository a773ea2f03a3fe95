/** What a completed-trips report guarantees about the distance the hardware is armed with. */
module TripTheorems {
  import opened TripBatching

  /** The distance of the trip is a 32-bit number when the hardware reports acc. */
  predicate NoWrap(t: Trip, acc: U32) {
    0 <= Travelled(t, acc) < TWO32
  }

  predicate AllNoWrap(trips: seq<Trip>, acc: U32) {
    forall t :: t in trips ==> NoWrap(t, acc)
  }

  /** Distance of the trip when the running batch has gone `batch`. */
  function Travelled(t: Trip, batch: U32): int { t.accRestart + (batch - t.accBatch) }

  predicate UpToDate(t: Trip, acc: U32) {
    t.accTrip == Travelled(t, acc) && t.accTrip < t.distance
  }

  /** What a trip still has to go, at a batch distance of `batch`. */
  function ToGo(t: Trip, batch: U32): int { t.distance - Travelled(t, batch) }

  lemma NowIsExact(t: Trip, acc: U32)
    requires NoWrap(t, acc)
    ensures Now(t, acc).accTrip == Travelled(t, acc)
  {
    if acc < t.accBatch {
      assert Sub32(acc, t.accBatch) == TWO32 + acc - t.accBatch;
    } else {
      assert Sub32(acc, t.accBatch) == acc - t.accBatch;
    }
  }

  lemma {:induction false} LiveIsUpToDate(trips: seq<Trip>, acc: U32)
    requires AllNoWrap(trips, acc)
    ensures forall t :: t in Live(trips, acc) ==> UpToDate(t, acc) && NoWrap(t, acc)
    ensures forall t :: t in trips ==> Now(t, acc) in Live(trips, acc) || Now(t, acc) in Done(trips, acc)
    ensures forall t :: t in Done(trips, acc) ==> t.distance <= t.accTrip
  {
    if trips != [] {
      LiveIsUpToDate(trips[1..], acc);
      NowIsExact(trips[0], acc);
    }
  }

  /** The least of the remaining distances: attained, and nobody has less. */
  ghost predicate IsLeast(least: int, trips: seq<Trip>, acc: U32) {
    && 0 < least
    && (forall t :: t in trips ==> least <= ToGo(t, acc))
    && (exists t :: t in trips && ToGo(t, acc) == least)
  }

  /** The least remaining distance by the records, which may be older than the distance gone. */
  lemma {:induction false} LeastRecorded(trips: seq<Trip>)
    requires trips != [] && forall t :: t in trips ==> t.accTrip < t.distance
    ensures var least := LeastRemaining(trips);
      && 0 < least
      && (forall t :: t in trips ==> least <= t.distance - t.accTrip)
      && (exists t :: t in trips && least == t.distance - t.accTrip)
  {
    var front, last := trips[..|trips| - 1], trips[|trips| - 1];
    assert last in trips && trips == front + [last];
    if front != [] {
      LeastRecorded(front);
    }
  }

  lemma LeastRemainingIsLeast(trips: seq<Trip>, acc: U32)
    requires trips != [] && forall t :: t in trips ==> UpToDate(t, acc)
    ensures IsLeast(LeastRemaining(trips), trips, acc)
  {
    LeastRecorded(trips);
  }

  lemma {:induction false} LeastTbfIsLeast(trips: seq<Trip>)
    requires trips != [] && forall t :: t in trips ==> 0 < t.tbf
    ensures 0 < LeastTbf(trips) && forall t :: t in trips ==> LeastTbf(trips) <= t.tbf
    ensures exists t :: t in trips && t.tbf == LeastTbf(trips)
  {
    var front, last := trips[..|trips| - 1], trips[|trips| - 1];
    assert last in trips && trips == front + [last];
    if front != [] {
      LeastTbfIsLeast(front);
    }
  }

  /** Restarting the batch from 0 leaves every trip's own distance as it was. */
  lemma {:induction false} RebaseConserves(trips: seq<Trip>, acc: U32)
    requires AllNoWrap(trips, acc)
    ensures |RebaseAll(trips, acc)| == |trips|
    ensures forall i :: 0 <= i < |trips| ==>
              var (t, r) := (trips[i], RebaseAll(trips, acc)[i]);
              && r.id == t.id && r.distance == t.distance && r.tbf == t.tbf
              && r.accBatch == 0 && r.accTrip == r.accRestart
              && Travelled(r, 0) == Travelled(t, acc)
  {
    if trips != [] {
      RebaseConserves(trips[1..], acc);
      NowIsExact(trips[0], acc);
    }
  }

  lemma RebaseKeepsLeast(least: int, trips: seq<Trip>, acc: U32)
    requires AllNoWrap(trips, acc) && IsLeast(least, trips, acc)
    ensures IsLeast(least, RebaseAll(trips, acc), 0)
  {
    RebaseConserves(trips, acc);
    var rs := RebaseAll(trips, acc);
    var t :| t in trips && ToGo(t, acc) == least;
    var k :| 0 <= k < |trips| && trips[k] == t;
    assert rs[k] in rs && ToGo(rs[k], 0) == least;
    forall r | r in rs ensures least <= ToGo(r, 0) {
      var i :| 0 <= i < |rs| && rs[i] == r;
      assert trips[i] in trips;
    }
  }

  /** The condition under which a restart arms the least recorded distance: the armed distance is
    * reached or passed, or a trip of just that distance is gone. */
  predicate Ended(b: Batch, acc: U32) {
    || (b.distance <= acc && forall t :: t in b.trips ==> t.accBatch <= b.distance)
    || b.distanceDropped || UsesDistance(Done(b.trips, acc), b.distance)
  }

  /** A report that completes a trip while others go on: after the restart every live trip has at
    * least the armed distance to go, one of them exactly that, the interval suits every live trip,
    * and no trip's own distance changed. */
  lemma ReportRearms(b: Batch, acc: U32)
    requires AllNoWrap(b.trips, acc) && Ended(b, acc)
    requires forall t :: t in b.trips ==> 0 < t.tbf
    requires Done(b.trips, acc) != [] && Live(b.trips, acc) != []
    ensures var after := Completed(b, acc, true).0;
      && IsLeast(after.distance, after.trips, 0)
      && (forall t :: t in after.trips ==> after.tbf <= t.tbf)
      && after.trips == RebaseAll(Live(b.trips, acc), acc)
  {
    var s := Sorted(b, acc);
    LiveIsUpToDate(b.trips, acc);
    LiveKeepsTbf(b.trips, acc);
    ReportArmsLeast(b, acc);
    LeastRemainingIsLeast(s.trips, acc);
    RebaseKeepsLeast(LeastRemaining(s.trips), s.trips, acc);
    NewTbfSuits(s, acc);
  }

  lemma ReportArmsLeast(b: Batch, acc: U32)
    requires AllNoWrap(b.trips, acc) && Ended(b, acc) && Live(b.trips, acc) != []
    ensures var s := Sorted(b, acc); NewDistance(s, acc) == (LeastRemaining(s.trips), true)
  {
    var s := Sorted(b, acc);
    LiveIsUpToDate(b.trips, acc);
    LeastRecorded(s.trips);
    if b.distance < acc && !s.distanceDropped {
      LiveKeepsStart(b.trips, acc, b.distance);
      assert Sub32(b.distance, acc) == TWO32 + b.distance - acc;
      var t :| t in s.trips && LeastRemaining(s.trips) == t.distance - t.accTrip;
      assert t.accTrip == Travelled(t, acc);
    }
  }

  lemma NewTbfSuits(b: Batch, acc: U32)
    requires b.trips != [] && AllNoWrap(b.trips, acc) && forall t :: t in b.trips ==> 0 < t.tbf
    ensures forall t :: t in RebaseAll(b.trips, acc) ==> NewTbf(b).0 <= t.tbf
  {
    LeastTbfIsLeast(b.trips);
    RebaseConserves(b.trips, acc);
    forall r | r in RebaseAll(b.trips, acc) ensures NewTbf(b).0 <= r.tbf {
      var i :| 0 <= i < |b.trips| && RebaseAll(b.trips, acc)[i] == r;
      assert b.trips[i] in b.trips;
    }
  }

  lemma {:induction false} LiveKeepsTbf(trips: seq<Trip>, acc: U32)
    requires forall t :: t in trips ==> 0 < t.tbf
    ensures forall t :: t in Live(trips, acc) ==> 0 < t.tbf
  {
    if trips != [] { LiveKeepsTbf(trips[1..], acc); }
  }

  lemma {:induction false} LiveKeepsStart(trips: seq<Trip>, acc: U32, last: U32)
    requires forall t :: t in trips ==> t.accBatch <= last
    ensures forall t :: t in Live(trips, acc) ==> t.accBatch <= last
  {
    if trips != [] { LiveKeepsStart(trips[1..], acc, last); }
  }

  // ---------- Restarts on a stop, with records of any age ----------

  /** The record of a trip, made at the last report or restart, or when it joined. */
  predicate Recorded(t: Trip, acc: U32) {
    NoWrap(t, acc) && t.accTrip <= Travelled(t, acc) && t.accTrip < t.distance
  }

  predicate AllRecorded(trips: seq<Trip>, acc: U32) {
    forall t :: t in trips ==> Recorded(t, acc)
  }

  /** What the hardware still goes after the call before it reports. */
  function HardwareToGo(b: Batch, acc: U32, restarted: bool): int {
    if restarted then b.distance else b.distance - acc
  }

  /** The hardware reports no later than the first trip to complete. */
  predicate InTime(b: Batch, acc: U32, restarted: bool) {
    forall t :: t in b.trips ==>
      HardwareToGo(b, acc, restarted) <= ToGo(t, if restarted then 0 else acc)
  }

  /** No trip has less to go, and its record is not older than the distance gone. */
  predicate NearestIsCurrent(trips: seq<Trip>, acc: U32) {
    exists t :: t in trips && UpToDate(t, acc) && forall u :: u in trips ==> ToGo(t, acc) <= ToGo(u, acc)
  }

  predicate NobodyNearer(trips: seq<Trip>, d: int, acc: U32) {
    forall t :: t in trips ==> d <= ToGo(t, acc)
  }

  /** The least recorded distance is the least distance to go exactly when a nearest trip's record is
    * current; else it is more than that trip has to go. */
  lemma RecordedIsLeastIff(trips: seq<Trip>, acc: U32)
    requires trips != [] && AllRecorded(trips, acc)
    ensures NobodyNearer(trips, LeastRemaining(trips), acc) <==> NearestIsCurrent(trips, acc)
    ensures NearestIsCurrent(trips, acc) <==> IsLeast(LeastRemaining(trips), trips, acc)
  {
    LeastRecorded(trips);
    var t :| t in trips && LeastRemaining(trips) == t.distance - t.accTrip;
    if NobodyNearer(trips, LeastRemaining(trips), acc) {
      assert UpToDate(t, acc);
    }
  }

  lemma RebasedNearer(trips: seq<Trip>, d: int, acc: U32)
    requires AllNoWrap(trips, acc)
    ensures NobodyNearer(RebaseAll(trips, acc), d, 0) <==> NobodyNearer(trips, d, acc)
  {
    RebaseConserves(trips, acc);
    var rs := RebaseAll(trips, acc);
    forall t | t in trips ensures exists r :: r in rs && ToGo(r, 0) == ToGo(t, acc) {
      var i :| 0 <= i < |trips| && trips[i] == t;
      assert rs[i] in rs;
    }
    forall r | r in rs ensures exists t :: t in trips && ToGo(r, 0) == ToGo(t, acc) {
      var i :| 0 <= i < |rs| && rs[i] == r;
      assert trips[i] in trips;
    }
  }

  /** When the hardware, after what restartTripBatching decides at the distance acc, reports in time.
    * Without a restart it goes on to the old distance; a restart for the distance arms the least
    * recorded distance; one for the interval alone arms the whole old distance again. */
  lemma RestartInTimeIff(b: Batch, acc: U32)
    requires b.trips != [] && AllRecorded(b.trips, acc)
    ensures InTime(Restart(b, acc, true).0, acc, Restarts(b, acc)) <==>
              if !Restarts(b, acc) then NobodyNearer(b.trips, b.distance - acc, acc)
              else if NewDistance(b, acc).1 then NearestIsCurrent(b.trips, acc)
              else NobodyNearer(b.trips, b.distance, acc)
  {
    var after := Restart(b, acc, true).0;
    RecordedIsLeastIff(b.trips, acc);
    if Restarts(b, acc) {
      RebasedNearer(b.trips, after.distance, acc);
      assert InTime(after, acc, true) <==> NobodyNearer(after.trips, after.distance, 0);
    }
  }

  /** With the hardware in time before the stop, a restart for the distance is always one after the
    * armed distance was dropped or reached. */
  lemma DistanceRestartIff(b: Batch, acc: U32)
    requires b.trips != [] && AllRecorded(b.trips, acc) && acc <= b.distance
    requires NobodyNearer(b.trips, b.distance - acc, acc)
    ensures NewDistance(b, acc).1 <==> b.distanceDropped || acc == b.distance
    ensures NewDistance(b, acc).0 == if NewDistance(b, acc).1 then LeastRemaining(b.trips) else b.distance
  {
    LeastRecorded(b.trips);
    assert Sub32(b.distance, acc) == b.distance - acc;
  }

  /** The least that a trip has left by its record. */
  predicate LeastOnRecord(d: int, trips: seq<Trip>) {
    && (forall t :: t in trips ==> d <= t.distance - t.accTrip)
    && (exists t :: t in trips && t.distance - t.accTrip == d)
  }

  /** When the armed distance does not count any more, or a trip has less left by its record than the
    * hardware has to go. */
  predicate NearerOnRecord(b: Batch, acc: U32) {
    || b.distanceDropped || acc == b.distance
    || exists t :: t in b.trips && t.distance - t.accTrip < b.distance - acc
  }

  /** What a restart arms up to the armed distance, late hardware included: the least recorded distance
    * exactly under that condition, and else, if it calls at all, the old distance again. */
  lemma RestartArms(b: Batch, acc: U32, ok: bool)
    requires b.trips != [] && acc <= b.distance && forall t :: t in b.trips ==> t.accTrip < t.distance
    ensures var (after, calls) := Restart(b, acc, ok);
      && (NearerOnRecord(b, acc) ==>
            && |calls| == 1 && calls[0].ReStart? && LeastOnRecord(calls[0].distance, b.trips)
            && (ok ==> after.distance == calls[0].distance))
      && (!NearerOnRecord(b, acc) ==>
            && (calls == [] || (|calls| == 1 && calls[0].ReStart? && calls[0].distance == b.distance))
            && after.distance == b.distance)
  {
    LeastRecorded(b.trips);
    assert Sub32(b.distance, acc) == b.distance - acc;
    var least := LeastRemaining(b.trips);
    assert LeastOnRecord(least, b.trips);
    assert (exists t :: t in b.trips && t.distance - t.accTrip < b.distance - acc) <==> least < b.distance - acc;
  }

  /** And which interval: the least that a trip asks for if that is shorter, or if it differs and the
    * running one was dropped; else the running one. There is a call if and only if either changes so. */
  lemma RestartInterval(b: Batch, acc: U32, ok: bool)
    requires b.trips != [] && acc <= b.distance
    requires forall t :: t in b.trips ==> t.accTrip < t.distance && 0 < t.tbf
    ensures var (after, calls) := Restart(b, acc, ok);
            var shorter := exists t :: t in b.trips && t.tbf < b.tbf;
            var changes := shorter || (b.tbfDropped && !UsesTbf(b.trips, b.tbf));
      && (calls != [] <==> NearerOnRecord(b, acc) || changes)
      && (calls != [] ==>
            if changes then
              UsesTbf(b.trips, calls[0].tbf) && forall t :: t in b.trips ==> calls[0].tbf <= t.tbf
            else calls[0].tbf == b.tbf)
  {
    RestartArms(b, acc, ok);
    LeastTbfIsLeast(b.trips);
  }

  /** When the last trip in order has nothing left on record, the running minimum is 0, which stands for
    * none: with the armed distance still running the restart arms 0, else it keeps the old distance. */
  lemma NothingLeft(b: Batch, acc: U32, ok: bool)
    requires b.trips != [] && b.trips[|b.trips| - 1].accTrip == b.trips[|b.trips| - 1].distance
    requires acc <= b.distance
    ensures var (after, calls) := Restart(b, acc, ok);
      && (b.distanceDropped || acc == b.distance ==>
            after.distance == b.distance && (calls == [] || calls[0] == ReStart(b.distance, NewTbf(b).0)))
      && (!b.distanceDropped && acc < b.distance ==> |calls| == 1 && calls[0] == ReStart(0, NewTbf(b).0))
  {
    assert Sub32(b.distance, acc) == b.distance - acc;
  }

  /** The marks that a trip with the armed distance or the running interval is gone: set by exactly the
    * stops and completions of such trips, and never cleared. */
  lemma StopMarks(b: Batch, k: nat)
    requires k < |b.trips|
    ensures Without(b, k).distanceDropped <==> b.distanceDropped || b.trips[k].distance == b.distance
    ensures Without(b, k).tbfDropped <==> b.tbfDropped || b.trips[k].tbf == b.tbf
  {
  }

  lemma {:induction false} DoneAre(trips: seq<Trip>, acc: U32)
    requires AllNoWrap(trips, acc)
    ensures forall x :: x in Done(trips, acc) <==>
              exists t :: t in trips && x == Now(t, acc) && t.distance <= Travelled(t, acc)
  {
    if trips != [] {
      DoneAre(trips[1..], acc);
      NowIsExact(trips[0], acc);
      assert forall t :: t in trips <==> t == trips[0] || t in trips[1..];
    }
  }

  lemma ReportMarks(b: Batch, acc: U32)
    requires AllNoWrap(b.trips, acc)
    ensures Sorted(b, acc).distanceDropped <==>
              b.distanceDropped || exists t :: t in b.trips && t.distance == b.distance <= Travelled(t, acc)
    ensures Sorted(b, acc).tbfDropped <==>
              b.tbfDropped || exists t :: t in b.trips && t.tbf == b.tbf && t.distance <= Travelled(t, acc)
  {
    DoneAre(b.trips, acc);
    forall t | t in b.trips && t.distance <= Travelled(t, acc) ensures Now(t, acc) in Done(b.trips, acc) {
    }
  }
}
