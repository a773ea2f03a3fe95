/** When reports, starts and stops leave the hardware armed with the least distance to go. */
module TripRuns {
  import opened Wrappers
  import opened TripBatching
  import opened TripTheorems

  // ---------- Trips by their ids ----------

  function Lookup(trips: seq<Trip>, id: U32): Option<Trip> {
    if trips == [] then None else if trips[0].id == id then Some(trips[0]) else Lookup(trips[1..], id)
  }

  predicate DistinctIds(trips: seq<Trip>) {
    trips == [] || (Lookup(trips[1..], trips[0].id).None? && DistinctIds(trips[1..]))
  }

  lemma {:induction false} LookupIn(trips: seq<Trip>, id: U32)
    ensures var o := Lookup(trips, id); o.Some? ==> o.value in trips && o.value.id == id
    ensures Lookup(trips, id).None? <==> forall t :: t in trips ==> t.id != id
  {
    if trips != [] { LookupIn(trips[1..], id); }
  }

  /** The live and the completed trips are those of the list, each with its distance so far. */
  lemma {:induction false} LookupLive(trips: seq<Trip>, acc: U32, id: U32)
    requires DistinctIds(trips)
    ensures Lookup(Live(trips, acc), id) == match Lookup(trips, id)
              case None => None
              case Some(t) => if Complete(Now(t, acc)) then None else Some(Now(t, acc))
    ensures id in Ids(Done(trips, acc)) <==>
              Lookup(trips, id).Some? && Complete(Now(Lookup(trips, id).value, acc))
  {
    if trips != [] {
      LookupLive(trips[1..], acc, id);
    }
  }

  lemma {:induction false} LookupRebased(trips: seq<Trip>, acc: U32, id: U32)
    ensures Lookup(RebaseAll(trips, acc), id) == match Lookup(trips, id)
              case None => None
              case Some(t) => Some(Rebase(t, acc))
  {
    if trips != [] { LookupRebased(trips[1..], acc, id); }
  }

  lemma {:induction false} LookupPut(trips: seq<Trip>, t: Trip, id: U32)
    ensures Lookup(Put(trips, t), id) == if id == t.id then Some(t) else Lookup(trips, id)
  {
    if trips != [] { LookupPut(trips[1..], t, id); }
  }

  lemma {:induction false} LookupRestamped(trips: seq<Trip>, id: U32)
    ensures Lookup(RestampAll(trips), id) == match Lookup(trips, id)
              case None => None
              case Some(t) => Some(Restamp(t))
  {
    if trips != [] { LookupRestamped(trips[1..], id); }
  }

  lemma {:induction false} LookupWithout(trips: seq<Trip>, k: nat, id: U32)
    requires DistinctIds(trips) && k < |trips|
    ensures Lookup(trips[..k] + trips[k + 1..], id) == if trips[k].id == id then None else Lookup(trips, id)
    ensures DistinctIds(trips[..k] + trips[k + 1..])
  {
    var tail := trips[1..];
    if k == 0 {
      assert trips[..0] + trips[1..] == tail;
    } else {
      assert trips[..k] + trips[k + 1..] == [trips[0]] + (tail[..k - 1] + tail[k..]);
      LookupWithout(tail, k - 1, id);
      LookupWithout(tail, k - 1, trips[0].id);
      LookupIn(tail, trips[0].id);
      assert tail[k - 1] in tail;
    }
  }

  lemma {:induction false} SplitCount(trips: seq<Trip>, acc: U32)
    ensures |Live(trips, acc)| + |Done(trips, acc)| == |trips|
  {
    if trips != [] { SplitCount(trips[1..], acc); }
  }

  lemma {:induction false} LiveDistinct(trips: seq<Trip>, acc: U32)
    requires DistinctIds(trips)
    ensures DistinctIds(Live(trips, acc)) && DistinctIds(RebaseAll(Live(trips, acc), acc))
  {
    if trips != [] {
      LiveDistinct(trips[1..], acc);
      LookupLive(trips[1..], acc, trips[0].id);
      LookupRebased(Live(trips[1..], acc), acc, trips[0].id);
    }
  }

  lemma {:induction false} DistinctRebased(trips: seq<Trip>, acc: U32)
    requires DistinctIds(trips)
    ensures DistinctIds(RebaseAll(trips, acc))
  {
    if trips != [] {
      DistinctRebased(trips[1..], acc);
      LookupRebased(trips[1..], acc, trips[0].id);
    }
  }

  lemma {:induction false} PutAdds(trips: seq<Trip>, t: Trip)
    requires DistinctIds(trips) && Lookup(trips, t.id).None?
    ensures DistinctIds(Put(trips, t))
    ensures forall x :: x in Put(trips, t) <==> x == t || x in trips
  {
    if trips != [] {
      PutAdds(trips[1..], t);
      LookupPut(trips[1..], t, trips[0].id);
      assert forall x :: x in trips <==> x == trips[0] || x in trips[1..];
    }
  }

  lemma {:induction false} RestampDistinct(trips: seq<Trip>)
    requires DistinctIds(trips)
    ensures DistinctIds(RestampAll(trips))
  {
    if trips != [] {
      RestampDistinct(trips[1..]);
      LookupRestamped(trips[1..], trips[0].id);
    }
  }

  /** The trips are in the order of their ids, each once, as in a map. */
  predicate InOrder(trips: seq<Trip>) {
    |trips| <= 1 || (trips[0].id < trips[1].id && InOrder(trips[1..]))
  }

  /** Setting an entry keeps the order, and replaces the one of the same id. */
  lemma {:induction false} PutKeepsOrder(trips: seq<Trip>, t: Trip)
    requires InOrder(trips)
    ensures InOrder(Put(trips, t))
    ensures |Put(trips, t)| == |trips| + if exists x :: x in trips && x.id == t.id then 0 else 1
  {
    if trips != [] {
      AfterFirst(trips);
      PutKeepsOrder(trips[1..], t);
      assert forall x :: x in trips <==> x == trips[0] || x in trips[1..];
    }
  }

  lemma {:induction false} AfterFirst(trips: seq<Trip>)
    requires InOrder(trips) && trips != []
    ensures forall x :: x in trips[1..] ==> trips[0].id < x.id
  {
    if |trips| > 1 { AfterFirst(trips[1..]); }
  }

  // ---------- The armed distance ----------

  /** The hardware is armed with the least distance the trips have to go, counted from the start of
    * the batch; a trip may have joined later. */
  ghost predicate Armed(b: Batch) {
    && DistinctIds(b.trips)
    && (forall t :: t in b.trips ==> t.accBatch <= b.distance)
    && (b.trips != [] ==> IsLeast(b.distance, b.trips, 0))
  }

  /** What the trip has to go, counted from the start of the batch; None when it is not there. */
  function Left(b: Batch, id: U32): Option<int> {
    match Lookup(b.trips, id)
    case None => None
    case Some(t) => Some(ToGo(t, 0))
  }

  lemma RebasedIsArmed(b: Batch, trips: seq<Trip>, acc: U32)
    requires trips != [] && DistinctIds(trips) && AllNoWrap(trips, acc)
    requires b.trips == RebaseAll(trips, acc)
    ensures Armed(b) <==> IsLeast(b.distance, trips, acc)
  {
    DistinctRebased(trips, acc);
    RebaseConserves(trips, acc);
    if IsLeast(b.distance, trips, acc) {
      RebaseKeepsLeast(b.distance, trips, acc);
    }
    if IsLeast(b.distance, b.trips, 0) {
      RebasedNearer(trips, b.distance, acc);
      var r :| r in b.trips && ToGo(r, 0) == b.distance;
      var i :| 0 <= i < |trips| && b.trips[i] == r;
      assert trips[i] in trips;
    }
  }

  lemma {:induction false} NoneDone(trips: seq<Trip>, acc: U32, least: U32)
    requires forall t :: t in trips ==> !Complete(Now(t, acc)) && t.accBatch <= least && least <= ToGo(t, 0)
    ensures Done(trips, acc) == []
    ensures forall x :: x in Live(trips, acc) ==> x.accBatch <= least && least <= ToGo(x, 0)
    ensures forall t :: t in trips ==> Now(t, acc) in Live(trips, acc) && ToGo(Now(t, acc), 0) == ToGo(t, 0)
  {
    if trips != [] { NoneDone(trips[1..], acc, least); }
  }

  /** A report before the armed distance completes no trip, and the batch stays armed. */
  lemma EarlyReportArms(b: Batch, acc: U32)
    requires Armed(b) && AllNoWrap(b.trips, acc) && acc < b.distance
    ensures Done(b.trips, acc) == [] && Armed(Completed(b, acc, true).0)
  {
    forall t | t in b.trips ensures !Complete(Now(t, acc)) { NowIsExact(t, acc); }
    LiveDistinct(b.trips, acc);
    if b.trips != [] { NoneDone(b.trips, acc, b.distance); }
  }

  /** One at the armed distance or past it completes some trip, and arms the others anew. */
  lemma ReportArms(b: Batch, acc: U32)
    requires Armed(b) && b.trips != [] && AllNoWrap(b.trips, acc) && b.distance <= acc
    ensures var after := Completed(b, acc, true).0;
      && Armed(after) && |after.trips| < |b.trips|
      && after.trips == RebaseAll(Live(b.trips, acc), acc)
  {
    var live := Live(b.trips, acc);
    SomeCompletes(b, acc);
    SplitCount(b.trips, acc);
    LiveDistinct(b.trips, acc);
    LiveIsUpToDate(b.trips, acc);
    RebaseConserves(live, acc);
    if live != [] {
      ReportArmsLeast(b, acc);
      LeastRemainingIsLeast(live, acc);
      RebasedIsArmed(Completed(b, acc, true).0, live, acc);
    }
  }

  lemma SomeCompletes(b: Batch, acc: U32)
    requires Armed(b) && b.trips != [] && AllNoWrap(b.trips, acc) && b.distance <= acc
    ensures Done(b.trips, acc) != []
  {
    var least :| least in b.trips && ToGo(least, 0) == b.distance;
    NowIsExact(least, acc);
    LiveIsUpToDate(b.trips, acc);
    if Now(least, acc) in Live(b.trips, acc) { assert false; }
  }

  /** The trips after a report, by their ids: rebased on an accepted restart. */
  lemma LookupReported(b: Batch, acc: U32, ok: bool, id: U32)
    requires DistinctIds(b.trips)
    requires Lookup(b.trips, id).Some? ==> NoWrap(Lookup(b.trips, id).value, acc)
    ensures var (after, calls) := Completed(b, acc, ok);
            Lookup(after.trips, id) == match Lookup(b.trips, id)
              case None => None
              case Some(t) =>
                if Complete(Now(t, acc)) then None
                else Some(if calls != [] && ok then Rebase(t, acc) else Now(t, acc))
    ensures id in Ids(Done(b.trips, acc)) <==>
              Lookup(b.trips, id).Some? && Complete(Now(Lookup(b.trips, id).value, acc))
  {
    LookupLive(b.trips, acc, id);
    LookupRebased(Live(b.trips, acc), acc, id);
    var o := Lookup(b.trips, id);
    if o.Some? {
      NowIsExact(o.value, acc);
      NowIsExact(Now(o.value, acc), acc);
    }
  }

  lemma DistinctReported(b: Batch, acc: U32, ok: bool)
    requires DistinctIds(b.trips)
    ensures DistinctIds(Completed(b, acc, ok).0.trips)
  {
    LiveDistinct(b.trips, acc);
  }

  /** One trip over one report: it is told when it has gone its distance, else it goes on. */
  lemma ReportFollows(b: Batch, acc: U32, ok: bool, id: U32)
    requires DistinctIds(b.trips)
    requires Lookup(b.trips, id).Some? ==> NoWrap(Lookup(b.trips, id).value, acc)
    ensures var (after, calls) := Completed(b, acc, ok);
      && (id in Ids(Done(b.trips, acc)) <==> Left(b, id).Some? && Left(b, id).value <= acc)
      && Left(after, id) == match Left(b, id)
           case None => None
           case Some(d) => if d <= acc then None else Some(if calls != [] && ok then d - acc else d)
  {
    LookupReported(b, acc, ok, id);
    var o := Lookup(b.trips, id);
    if o.Some? { NowIsExact(o.value, acc); }
  }

  lemma FirstStartArms(b: Batch, req: Request, acc: Option<U32>, locked: bool)
    requires b.trips == [] && 0 < req.distance
    ensures Armed(Started(b, req, acc, true, locked).0)
  {
    var after := Started(b, req, acc, true, locked).0;
    assert after.trips[0] in after.trips && ToGo(after.trips[0], 0) == req.distance;
  }

  // ---------- Joining a running batch ----------

  /** The trips after a join, by their ids. */
  lemma LookupJoined(b: Batch, req: Request, acc: Option<U32>, id: U32)
    ensures Lookup(Joined(b, req, acc).trips, id) ==
            match (if acc.Some? && id == req.id then Some(Trip(id, acc.value, 0, 0, req.distance, req.tbf))
                   else Lookup(b.trips, id))
            case None => None
            case Some(t) => Some(if JoinDistance(b, req, acc).1 then Restamp(t) else t)
  {
    LookupRestamped(b.trips, id);
    if acc.Some? {
      var t := Trip(req.id, acc.value, 0, 0, req.distance, req.tbf);
      LookupPut(b.trips, t, id);
      LookupRestamped(Put(b.trips, t), id);
    }
  }

  lemma DistinctJoined(b: Batch, req: Request, acc: Option<U32>)
    requires DistinctIds(b.trips) && Lookup(b.trips, req.id).None?
    ensures DistinctIds(Joined(b, req, acc).trips)
  {
    RestampDistinct(b.trips);
    if acc.Some? {
      var t := Trip(req.id, acc.value, 0, 0, req.distance, req.tbf);
      PutAdds(b.trips, t);
      RestampDistinct(Put(b.trips, t));
    }
  }

  /** Whether a new trip is recorded; when its client is told success although it is not: the query of
    * a running batch fails, and no restart is refused; and when it is told failure although it is: the
    * hardware refuses the start of a first trip while the engine lock is disabled, or the restart for
    * a joining one. */
  lemma StartRecordsIff(b: Batch, req: Request, acc: Option<U32>, ok: bool, locked: bool)
    requires Lookup(b.trips, req.id).None?
    ensures var (after, calls, success) := Started(b, req, acc, ok, locked);
            var recorded := Lookup(after.trips, req.id).Some?;
      && (recorded <==> if b.trips == [] then ok || locked else acc.Some?)
      && (success && !recorded <==> b.trips != [] && acc.None? && (ok || !JoinDistance(b, req, acc).1))
      && (!success && recorded <==>
            !ok && if b.trips == [] then locked else acc.Some? && JoinDistance(b, req, acc).1)
  {
    LookupJoined(b, req, acc, req.id);
  }

  /** The call for a joining trip: there is one exactly when the trip is nearer than what the hardware
    * has to go, or wants a shorter interval, and it arms the lesser of both. When the query fails, the
    * whole armed distance stands for what is left, and the trip is not taken in. */
  lemma JoinCalls(b: Batch, req: Request, acc: Option<U32>, ok: bool, locked: bool)
    requires b.trips != [] && (acc.Some? ==> acc.value <= b.distance)
    ensures var (after, calls, _) := Started(b, req, acc, ok, locked);
            var left := if acc.Some? then b.distance - acc.value else b.distance;
      && (calls == [] || |calls| == 1)
      && (calls != [] <==> req.distance < left || req.tbf < b.tbf)
      && (calls != [] ==>
            && calls[0] == ReStart(if req.distance < left then req.distance else left,
                                   if req.tbf < b.tbf then req.tbf else b.tbf)
            && after.distance == calls[0].distance && after.tbf == calls[0].tbf)
      && (calls == [] ==> after.distance == b.distance && after.tbf == b.tbf)
      && (forall id :: Lookup(after.trips, id).Some? <==> Lookup(b.trips, id).Some? || (acc.Some? && id == req.id))
  {
    var after := Joined(b, req, acc);
    forall id
      ensures Lookup(after.trips, id).Some? <==> Lookup(b.trips, id).Some? || (acc.Some? && id == req.id)
    {
      LookupJoined(b, req, acc, id);
    }
    if acc.Some? { assert Sub32(b.distance, acc.value) == b.distance - acc.value; }
  }

  /** When the query is answered with the distance gone, joining makes the hardware report after the
    * lesser of the new trip's distance and what it had to go; without an answer it may report later
    * than before. */
  lemma JoinInTimeIff(b: Batch, req: Request, acc: Option<U32>, gone: U32)
    requires gone <= b.distance && (acc == None || acc == Some(gone))
    ensures var toGo := HardwareToGo(Joined(b, req, acc), gone, JoinDistance(b, req, acc).1);
      && (acc.Some? ==> toGo == if req.distance < b.distance - gone then req.distance else b.distance - gone)
      && (toGo <= b.distance - gone <==>
            acc.Some? || !JoinDistance(b, req, acc).1 || gone == 0 || req.distance <= b.distance - gone)
  {
    assert Sub32(b.distance, gone) == b.distance - gone;
  }

  lemma LeastWith(trips: seq<Trip>, t: Trip, more: seq<Trip>, least: int, acc: U32)
    requires IsLeast(least, trips, acc) && 0 < ToGo(t, acc)
    requires forall x :: x in more <==> x == t || x in trips
    ensures IsLeast(if ToGo(t, acc) < least then ToGo(t, acc) else least, more, acc)
  {
  }

  lemma {:induction false} RestampMembers(trips: seq<Trip>)
    ensures forall t :: t in trips ==> Restamp(t) in RestampAll(trips)
    ensures forall r :: r in RestampAll(trips) ==> exists t :: t in trips && r == Restamp(t)
  {
    if trips != [] { RestampMembers(trips[1..]); }
  }

  /** Restamped trips have to go what is left by their records. */
  lemma RestampIsArmedIff(b: Batch, trips: seq<Trip>)
    requires DistinctIds(trips) && b.trips == RestampAll(trips) && trips != []
    requires 0 < b.distance && forall t :: t in trips ==> b.distance <= t.distance - t.accTrip
    ensures Armed(b) <==> exists t :: t in trips && t.distance - t.accTrip == b.distance
  {
    RestampDistinct(trips);
    RestampMembers(trips);
    if t :| t in trips && t.distance - t.accTrip == b.distance {
      assert Restamp(t) in b.trips && ToGo(Restamp(t), 0) == b.distance;
    }
  }

  /** A trip that joins an armed batch before the report, with its query answered, leaves it armed if
    * and only if the batch does not restart, or the new trip has no more to go than the hardware had,
    * or a nearest trip's record is current. */
  lemma JoinArmsIff(b: Batch, req: Request, gone: U32)
    requires b.trips != [] && Armed(b) && gone < b.distance && AllRecorded(b.trips, gone)
    requires Lookup(b.trips, req.id).None? && 0 < req.distance
    ensures Armed(Joined(b, req, Some(gone))) <==>
            || !JoinDistance(b, req, Some(gone)).1
            || req.distance <= b.distance - gone
            || NearestIsCurrent(b.trips, gone)
  {
    var t := Trip(req.id, gone, 0, 0, req.distance, req.tbf);
    var left := b.distance - gone;
    assert Sub32(b.distance, gone) == left;
    PutAdds(b.trips, t);
    if JoinDistance(b, req, Some(gone)).1 {
      RestampIsArmedIff(Joined(b, req, Some(gone)), Put(b.trips, t));
      NearestHasLeft(b, gone);
    } else {
      LeastWith(b.trips, t, Put(b.trips, t), b.distance, 0);
    }
  }

  lemma NearestHasLeft(b: Batch, gone: U32)
    requires b.trips != [] && Armed(b) && AllRecorded(b.trips, gone)
    ensures NearestIsCurrent(b.trips, gone) <==>
            exists t :: t in b.trips && t.distance - t.accTrip == b.distance - gone
  {
    var n :| n in b.trips && ToGo(n, 0) == b.distance;
    if t :| t in b.trips && t.distance - t.accTrip == b.distance - gone {
      assert b.distance <= ToGo(t, 0);
      assert UpToDate(t, gone);
      forall u | u in b.trips ensures ToGo(t, gone) <= ToGo(u, gone) { assert b.distance <= ToGo(u, 0); }
    }
    if t :| t in b.trips && UpToDate(t, gone) && forall u :: u in b.trips ==> ToGo(t, gone) <= ToGo(u, gone) {
      assert ToGo(t, gone) <= ToGo(n, gone) && b.distance <= ToGo(t, 0);
    }
  }

  /** Then what the others have to go is kept, and the new trip has its whole distance. */
  lemma JoinFollows(b: Batch, req: Request, gone: U32, id: U32)
    requires Lookup(b.trips, req.id).None?
    requires var restarts := JoinDistance(b, req, Some(gone)).1;
             restarts ==> forall t :: t in b.trips ==> t.accTrip == Travelled(t, gone)
    ensures var before := if JoinDistance(b, req, Some(gone)).1 then gone else 0;
            Left(Joined(b, req, Some(gone)), id) ==
              if id == req.id then Some(req.distance + gone - before)
              else match Left(b, id) case None => None case Some(d) => Some(d - before)
  {
    LookupJoined(b, req, Some(gone), id);
    LookupIn(b.trips, id);
  }

  // ---------- Stopping a trip ----------

  /** No trip is left; or there is no restart and another trip has the old distance to go; or the
    * restart is for the distance, the old one being dropped or reached, and a nearest trip's record
    * is current; or it is for the interval alone and the least to go is the whole old distance. */
  ghost predicate StopFits(b: Batch, k: nat, acc: U32)
    requires k < |b.trips|
  {
    var left := Without(b, k);
    || left.trips == []
    || (if !Restarts(left, acc) then exists t :: t in left.trips && ToGo(t, 0) == b.distance
        else if left.distanceDropped || acc == b.distance then NearestIsCurrent(left.trips, acc)
        else IsLeast(b.distance, left.trips, acc))
  }

  /** Stopping a trip of an armed batch, not later than the report, leaves it armed if and only if: */
  lemma StopArmsIff(b: Batch, k: nat, acc: U32)
    requires Armed(b) && k < |b.trips| && acc <= b.distance && AllRecorded(b.trips, acc)
    ensures Armed(Stopped(b, k, acc, true).0) <==> StopFits(b, k, acc)
  {
    var left := Without(b, k);
    LookupWithout(b.trips, k, 0);
    assert forall t :: t in left.trips ==> t in b.trips;
    if left.trips != [] {
      DistanceRestartIff(left, acc);
      if Restarts(left, acc) {
        RebasedIsArmed(Stopped(b, k, acc, true).0, left.trips, acc);
        RecordedIsLeastIff(left.trips, acc);
      }
    }
  }

  /** Once the armed distance was dropped, every stop that leaves a trip restarts the batch with the
    * least recorded distance. */
  lemma DroppedRearms(b: Batch, k: nat, acc: U32, ok: bool)
    requires k < |b.trips| && 1 < |b.trips| && b.distanceDropped
    requires forall t :: t in b.trips ==> t.accTrip < t.distance
    ensures var left := Without(b, k);
      && Stopped(b, k, acc, ok).1 == [ReStart(LeastRemaining(left.trips), NewTbf(left).0)]
      && Stopped(b, k, acc, ok).0.distanceDropped
  {
    var left := Without(b, k);
    assert forall t :: t in left.trips ==> t in b.trips;
    LeastRecorded(left.trips);
  }

  // ---------- The engine comes up ----------

  /** A record that is not before the restart it counts from. */
  predicate Resumable(t: Trip) { Travelled(t, 0) <= t.accTrip < t.distance }

  /** After an engine restart the hardware is armed with the least distance to go, as the adapter will
    * see it, if and only if no trip joined the batch past that distance and a trip with the least
    * recorded distance has no record since the batch started. */
  lemma EngineArmsIff(b: Batch)
    requires b.trips != [] && DistinctIds(b.trips) && forall t :: t in b.trips ==> Resumable(t)
    ensures var least := LeastRemaining(b.trips);
            Armed(Resumed(b, true).0) <==>
              && (forall t :: t in b.trips ==> t.accBatch <= least)
              && (exists t :: t in b.trips && t.distance - t.accTrip == least && t.accTrip == Travelled(t, 0))
  {
    LeastRecorded(b.trips);
    if t :| t in b.trips && ToGo(t, 0) == LeastRemaining(b.trips) {
      assert t.accTrip == Travelled(t, 0);
    }
  }

  /** When the hardware reports acc, a trip that joined at more than it has gone since wraps around: it
    * is told as completed, though it has never gone that far, unless its distance is next to 2^32. */
  lemma WrapsIff(t: Trip, acc: U32)
    requires Travelled(t, acc) < TWO32
    ensures Now(t, acc).accTrip == Travelled(t, acc) <==> t.accBatch <= t.accRestart + acc
    ensures t.accRestart + acc < t.accBatch ==> (Complete(Now(t, acc)) <==> ToGo(t, acc) <= TWO32)
  {
    if t.accRestart + acc < t.accBatch {
      assert Sub32(acc, t.accBatch) == TWO32 + acc - t.accBatch;
    } else {
      NowIsExact(t, acc);
    }
  }

  /** The first report after an engine restart wraps no trip if and only if every trip joined the batch
    * at no more than its restart distance and the newly armed one. */
  lemma EngineWrapsIff(b: Batch)
    requires b.trips != [] && forall t :: t in b.trips ==> Resumable(t) && t.accRestart <= t.accTrip
    ensures var d := Resumed(b, true).0.distance;
            (forall t :: t in b.trips ==> Now(t, d).accTrip == Travelled(t, d)) <==>
              forall t :: t in b.trips ==> t.accBatch <= t.accRestart + d
  {
    LeastRecorded(b.trips);
    var d := LeastRemaining(b.trips);
    forall t | t in b.trips
      ensures Now(t, d).accTrip == Travelled(t, d) <==> t.accBatch <= t.accRestart + d
    {
      WrapsIff(t, d);
    }
  }

  /** An engine restart calls for the least recorded distance and the least interval; refused, it leaves
    * neither on record. */
  lemma ResumeArms(b: Batch, ok: bool)
    requires b.trips != [] && forall t :: t in b.trips ==> t.accTrip < t.distance && 0 < t.tbf
    ensures var (after, calls) := Resumed(b, ok);
      && after.trips == b.trips
      && |calls| == 1 && calls[0].Start? && LeastOnRecord(calls[0].distance, b.trips)
      && UsesTbf(b.trips, calls[0].tbf) && (forall t :: t in b.trips ==> calls[0].tbf <= t.tbf)
      && (ok ==> after.distance == calls[0].distance && after.tbf == calls[0].tbf)
      && (!ok ==> after.distance == 0 && after.tbf == 0)
  {
    LeastRecorded(b.trips);
    LeastTbfIsLeast(b.trips);
  }
}
