/** Trip batching of gps/batching/BatchingAdapter.cpp: many trips share one hardware distance. */
module TripBatching {
  import opened Wrappers

  const TWO32 := 0x1_0000_0000
  type U32 = x: int | 0 <= x < TWO32

  /** 32-bit sum and difference, which wrap around. */
  function Add32(a: U32, b: U32): U32 { (a + b) % TWO32 }
  function Sub32(a: U32, b: U32): U32 { (a - b) % TWO32 }

  /** accBatch: hardware distance when the trip joined the running batch; accRestart: its own
    * distance when that batch started; accTrip: its own distance at the last report. */
  datatype Trip = Trip(id: U32, accBatch: U32, accTrip: U32, accRestart: U32, distance: U32, tbf: U32)

  /** The trips in the order of their ids, and what the hardware is armed with. */
  datatype Batch = Batch(trips: seq<Trip>, distance: U32, tbf: U32, tbfDropped: bool, distanceDropped: bool)

  datatype Call = Start(distance: U32, tbf: U32) | ReStart(distance: U32, tbf: U32) | Stop

  function Now(t: Trip, acc: U32): Trip {
    t.(accTrip := Add32(t.accRestart, Sub32(acc, t.accBatch)))
  }

  predicate Complete(t: Trip) { t.distance <= t.accTrip }

  function Live(trips: seq<Trip>, acc: U32): seq<Trip> {
    if trips == [] then []
    else if Complete(Now(trips[0], acc)) then Live(trips[1..], acc)
    else [Now(trips[0], acc)] + Live(trips[1..], acc)
  }

  function Done(trips: seq<Trip>, acc: U32): seq<Trip> {
    if trips == [] then []
    else if Complete(Now(trips[0], acc)) then [Now(trips[0], acc)] + Done(trips[1..], acc)
    else Done(trips[1..], acc)
  }

  function Ids(trips: seq<Trip>): seq<U32> {
    if trips == [] then [] else [trips[0].id] + Ids(trips[1..])
  }

  predicate UsesTbf(trips: seq<Trip>, tbf: U32) { exists t :: t in trips && t.tbf == tbf }
  predicate UsesDistance(trips: seq<Trip>, d: U32) { exists t :: t in trips && t.distance == d }

  function Remaining(t: Trip): U32 { Sub32(t.distance, t.accTrip) }

  /** The running minimum of the source, in which 0 means none yet. */
  function Lower(least: U32, x: U32): U32 {
    if least == 0 || least > x then x else least
  }

  function LeastRemaining(trips: seq<Trip>): U32 {
    if trips == [] then 0 else Lower(LeastRemaining(trips[..|trips| - 1]), Remaining(trips[|trips| - 1]))
  }

  function LeastTbf(trips: seq<Trip>): U32 {
    if trips == [] then 0 else Lower(LeastTbf(trips[..|trips| - 1]), trips[|trips| - 1].tbf)
  }

  /** The distance to arm, and whether the batch must restart for it. */
  function NewDistance(b: Batch, acc: U32): (U32, bool) {
    var least := LeastRemaining(b.trips);
    if !b.distanceDropped && Sub32(b.distance, acc) != 0 then
      if least < Sub32(b.distance, acc) then (least, true) else (b.distance, false)
    else if least != 0 then (least, true)
    else (b.distance, false)
  }

  function NewTbf(b: Batch): (U32, bool) {
    var least := LeastTbf(b.trips);
    if least < b.tbf || (least != b.tbf && b.tbfDropped) then (least, true) else (b.tbf, false)
  }

  predicate Restarts(b: Batch, acc: U32) { NewDistance(b, acc).1 || NewTbf(b).1 }

  function Rebase(t: Trip, acc: U32): Trip {
    var now := Now(t, acc);
    now.(accBatch := 0, accRestart := now.accTrip)
  }

  function RebaseAll(trips: seq<Trip>, acc: U32): seq<Trip> {
    if trips == [] then [] else [Rebase(trips[0], acc)] + RebaseAll(trips[1..], acc)
  }

  /** `ok` is the answer of the hardware to the restart. */
  function Restart(b: Batch, acc: U32, ok: bool): (Batch, seq<Call>) {
    if b.trips == [] then (b.(distance := 0, tbf := 0), [Stop])
    else if !Restarts(b, acc) then (b, [])
    else
      var (d, i) := (NewDistance(b, acc).0, NewTbf(b).0);
      (if ok then b.(trips := RebaseAll(b.trips, acc), distance := d, tbf := i) else b, [ReStart(d, i)])
  }

  /** The batch after the completed trips are taken out. */
  function Sorted(b: Batch, acc: U32): Batch {
    var done := Done(b.trips, acc);
    b.(trips := Live(b.trips, acc),
       tbfDropped := b.tbfDropped || UsesTbf(done, b.tbf),
       distanceDropped := b.distanceDropped || UsesDistance(done, b.distance))
  }

  function Completed(b: Batch, acc: U32, ok: bool): (Batch, seq<Call>) {
    if Done(b.trips, acc) == [] then (Sorted(b, acc), []) else Restart(Sorted(b, acc), acc, ok)
  }

  /** The batch without the trip at position k. */
  function Without(b: Batch, k: nat): Batch
    requires k < |b.trips|
  {
    var t := b.trips[k];
    b.(trips := b.trips[..k] + b.trips[k + 1..],
       tbfDropped := b.tbfDropped || t.tbf == b.tbf,
       distanceDropped := b.distanceDropped || t.distance == b.distance)
  }

  /** The trip at position k is stopped; acc is the distance the hardware answers to the query. */
  function Stopped(b: Batch, k: nat, acc: U32, ok: bool): (Batch, seq<Call>)
    requires k < |b.trips|
  {
    var left := Without(b, k);
    if left.trips == [] then (left.(distance := 0, tbf := 0), [Stop]) else Restart(left, acc, ok)
  }

  /** Sets the entry of t.id in the map of trips. */
  function Put(trips: seq<Trip>, t: Trip): seq<Trip> {
    if trips == [] || t.id < trips[0].id then [t] + trips
    else if t.id == trips[0].id then [t] + trips[1..]
    else [trips[0]] + Put(trips[1..], t)
  }

  /** The batch starts from 0 with the distances on record, which may be those of an older report. */
  function Restamp(t: Trip): Trip { t.(accBatch := 0, accRestart := t.accTrip) }

  function RestampAll(trips: seq<Trip>): seq<Trip> {
    if trips == [] then [] else [Restamp(trips[0])] + RestampAll(trips[1..])
  }

  datatype Request = Request(id: U32, distance: U32, tbf: U32)

  /** The distance to arm when a trip joins a running batch, and whether it must restart. `acc` is
    * the answer to the query, if there is one. */
  function JoinDistance(b: Batch, req: Request, acc: Option<U32>): (U32, bool) {
    var faster := b.tbf > req.tbf;
    match acc
    case None => if req.distance < b.distance then (req.distance, true) else (b.distance, faster)
    case Some(a) =>
      var left := Sub32(b.distance, a);
      if req.distance < left then (req.distance, true)
      else (if faster then left else b.distance, faster)
  }

  /** A trip joins a running batch; without an answer to the query it is not recorded. */
  function Joined(b: Batch, req: Request, acc: Option<U32>): Batch {
    var trips := match acc
      case None => b.trips
      case Some(a) => Put(b.trips, Trip(req.id, a, 0, 0, req.distance, req.tbf));
    var (distance, restarts) := JoinDistance(b, req, acc);
    if !restarts then b.(trips := trips)
    else b.(trips := RestampAll(trips), distance := distance, tbf := if b.tbf > req.tbf then req.tbf else b.tbf)
  }

  /** The batch, the calls, and the response: `ok` is the answer of the hardware, if it is called. A
    * first trip that is refused while the engine lock is disabled stays, to start with the engine. */
  function Started(b: Batch, req: Request, acc: Option<U32>, ok: bool, locked: bool): (Batch, seq<Call>, bool) {
    if b.trips == [] then
      var t := Trip(req.id, 0, 0, 0, req.distance, req.tbf);
      (if ok || locked then b.(trips := [t], distance := req.distance, tbf := req.tbf) else b,
       [Start(req.distance, req.tbf)], ok)
    else
      var after := Joined(b, req, acc);
      if JoinDistance(b, req, acc).1 then (after, [ReStart(after.distance, after.tbf)], ok)
      else (after, [], true)
  }

  /** The engine has come up: the hardware starts anew with the least recorded distance. The trips
    * stay as they are, for the source resets copies of them. */
  function Resumed(b: Batch, ok: bool): (Batch, seq<Call>) {
    if b.trips == [] then (b, [])
    else
      var (d, i) := (LeastRemaining(b.trips), LeastTbf(b.trips));
      (b.(distance := if ok then d else 0, tbf := if ok then i else 0), [Start(d, i)])
  }

  // ---------- The loops, one trip further ----------

  lemma {:induction false} RestampAppend(trips: seq<Trip>, t: Trip)
    ensures RestampAll(trips + [t]) == RestampAll(trips) + [Restamp(t)]
  {
    if trips != [] {
      RestampAppend(trips[1..], t);
      assert (trips + [t])[1..] == trips[1..] + [t];
    }
  }

  lemma {:induction false} SplitAppend(trips: seq<Trip>, t: Trip, acc: U32)
    ensures Live(trips + [t], acc) == Live(trips, acc) + if Complete(Now(t, acc)) then [] else [Now(t, acc)]
    ensures Done(trips + [t], acc) == Done(trips, acc) + if Complete(Now(t, acc)) then [Now(t, acc)] else []
  {
    if trips != [] {
      SplitAppend(trips[1..], t, acc);
      assert (trips + [t])[1..] == trips[1..] + [t];
    }
  }

  lemma {:induction false} IdsAppend(trips: seq<Trip>, t: Trip)
    ensures Ids(trips + [t]) == Ids(trips) + [t.id]
  {
    if trips != [] {
      IdsAppend(trips[1..], t);
      assert (trips + [t])[1..] == trips[1..] + [t];
    }
  }

  lemma Walk(kept: seq<Trip>, rest: seq<Trip>, t: Trip)
    requires rest != []
    ensures (kept + rest)[|kept|] == rest[0]
    ensures (kept + rest)[..|kept|] + (kept + rest)[|kept| + 1..] == kept + rest[1..]
    ensures (kept + rest)[|kept| := t] == kept + [t] + rest[1..]
    ensures kept + [rest[0]] + rest[1..] == kept + rest
  {
  }

  lemma UsesAppend(trips: seq<Trip>, t: Trip, tbf: U32, d: U32)
    ensures UsesTbf(trips + [t], tbf) <==> UsesTbf(trips, tbf) || t.tbf == tbf
    ensures UsesDistance(trips + [t], d) <==> UsesDistance(trips, d) || t.distance == d
  {
    assert (trips + [t])[|trips|] == t;
    assert forall x :: x in trips + [t] <==> x in trips || x == t;
  }

  lemma {:induction false} RebaseAppend(trips: seq<Trip>, t: Trip, acc: U32)
    ensures RebaseAll(trips + [t], acc) == RebaseAll(trips, acc) + [Rebase(t, acc)]
  {
    if trips != [] {
      RebaseAppend(trips[1..], t, acc);
      assert (trips + [t])[1..] == trips[1..] + [t];
    }
  }

  class BatchingAdapter {
    var tripSessions: seq<Trip>
    var ongoingTripDistance: U32
    var ongoingTripTBFInterval: U32
    var tripWithOngoingTBFDropped: bool
    var tripWithOngoingTripDistanceDropped: bool
    var calls: seq<Call>           // to the hardware
    var reported: seq<seq<U32>>    // completed trips told to the clients

    ghost function Value(): Batch
      reads this
    {
      Batch(tripSessions, ongoingTripDistance, ongoingTripTBFInterval,
            tripWithOngoingTBFDropped, tripWithOngoingTripDistanceDropped)
    }

    constructor ()
      ensures Value() == Batch([], 0, 0, false, false) && calls == [] && reported == []
    {
      tripSessions, calls, reported := [], [], [];
      ongoingTripDistance, ongoingTripTBFInterval := 0, 0;
      tripWithOngoingTBFDropped, tripWithOngoingTripDistanceDropped := false, false;
    }

    /** The accumulated distance of each trip; completed trips leave the list. */
    method TakeCompleted(acc: U32) returns (completed: seq<U32>)
      modifies this`tripSessions, this`tripWithOngoingTBFDropped, this`tripWithOngoingTripDistanceDropped
      ensures Value() == Sorted(old(Value()), acc)
      ensures completed == Ids(Done(old(tripSessions), acc))
    {
      completed := [];
      ghost var seen: seq<Trip>, rest := [], tripSessions;
      ghost var live: seq<Trip>, done: seq<Trip> := [], [];
      var it := 0;
      while it < |tripSessions|
        invariant it == |live| && tripSessions == live + rest
        invariant seen + rest == old(tripSessions) && live == Live(seen, acc) && done == Done(seen, acc)
        invariant completed == Ids(done)
        invariant tripWithOngoingTBFDropped == (old(tripWithOngoingTBFDropped) || UsesTbf(done, ongoingTripTBFInterval))
        invariant tripWithOngoingTripDistanceDropped ==
                  (old(tripWithOngoingTripDistanceDropped) || UsesDistance(done, ongoingTripDistance))
        decreases |rest|
      {
        var t := tripSessions[it];
        SplitAppend(seen, t, acc);
        Walk(live, rest, Now(t, acc));
        Walk(seen, rest, t);
        t := t.(accTrip := Add32(t.accRestart, Sub32(acc, t.accBatch)));
        if t.distance <= t.accTrip {
          IdsAppend(done, t);
          UsesAppend(done, t, ongoingTripTBFInterval, ongoingTripDistance);
          completed := completed + [t.id];
          tripSessions := tripSessions[..it] + tripSessions[it + 1..];
          if t.tbf == ongoingTripTBFInterval {
            tripWithOngoingTBFDropped := true;
          }
          if t.distance == ongoingTripDistance {
            tripWithOngoingTripDistanceDropped := true;
          }
          done := done + [t];
        } else {
          tripSessions := tripSessions[it := t];
          it := it + 1;
          live := live + [t];
        }
        seen, rest := seen + [rest[0]], rest[1..];
      }
      assert rest == [] && seen == old(tripSessions) && tripSessions == live;
    }

    method ReportCompletedTrips(acc: U32, restartOk: bool)
      modifies this
      ensures Value() == Completed(old(Value()), acc, restartOk).0
      ensures calls == old(calls) + Completed(old(Value()), acc, restartOk).1
      ensures var ids := Ids(Done(old(tripSessions), acc));
              reported == old(reported) + if ids == [] then [] else [ids]
    {
      ghost var done := Done(tripSessions, acc);
      var completed := TakeCompleted(acc);
      assert completed == [] <==> done == [];
      if |completed| > 0 {
        reported := reported + [completed];
        RestartTripBatching(acc, restartOk);
      }
    }

    method Least() returns (minRemainingDistance: U32, minTBFInterval: U32)
      ensures minRemainingDistance == LeastRemaining(tripSessions)
      ensures minTBFInterval == LeastTbf(tripSessions)
    {
      minRemainingDistance, minTBFInterval := 0, 0;
      for i := 0 to |tripSessions|
        invariant minRemainingDistance == LeastRemaining(tripSessions[..i])
        invariant minTBFInterval == LeastTbf(tripSessions[..i])
      {
        assert tripSessions[..i + 1][..i] == tripSessions[..i];
        var t := tripSessions[i];
        if minRemainingDistance == 0 || minRemainingDistance > Sub32(t.distance, t.accTrip) {
          minRemainingDistance := Sub32(t.distance, t.accTrip);
        }
        if minTBFInterval == 0 || minTBFInterval > t.tbf {
          minTBFInterval := t.tbf;
        }
      }
      assert tripSessions[..|tripSessions|] == tripSessions;
    }

    /** acc is the given distance or the one queried; the reply to the restart comes at once. */
    method RestartTripBatching(acc: U32, restartOk: bool)
      modifies this`tripSessions, this`ongoingTripDistance, this`ongoingTripTBFInterval, this`calls
      ensures Value() == Restart(old(Value()), acc, restartOk).0
      ensures calls == old(calls) + Restart(old(Value()), acc, restartOk).1
    {
      if tripSessions == [] {
        calls := calls + [Stop];
        ongoingTripDistance, ongoingTripTBFInterval := 0, 0;
        return;
      }
      var minRemainingDistance, minTBFInterval := Least();
      var needsRestart := false;
      var tripDistance, tripInterval := ongoingTripDistance, ongoingTripTBFInterval;
      if !tripWithOngoingTripDistanceDropped && Sub32(tripDistance, acc) != 0 {
        if minRemainingDistance < Sub32(tripDistance, acc) {
          tripDistance := minRemainingDistance;
          needsRestart := true;
        }
      } else if minRemainingDistance != 0 {
        tripDistance := minRemainingDistance;
        needsRestart := true;
      }
      if minTBFInterval < tripInterval || (minTBFInterval != tripInterval && tripWithOngoingTBFDropped) {
        tripInterval := minTBFInterval;
        needsRestart := true;
      }
      if needsRestart {
        calls := calls + [ReStart(tripDistance, tripInterval)];
        if restartOk {
          RebaseTrips(acc);
          ongoingTripDistance := tripDistance;
          ongoingTripTBFInterval := tripInterval;
        }
      }
    }

    method RebaseTrips(acc: U32)
      modifies this`tripSessions
      ensures tripSessions == RebaseAll(old(tripSessions), acc)
    {
      ghost var seen: seq<Trip>, rest := [], tripSessions;
      var it := 0;
      while it < |tripSessions|
        invariant it <= |tripSessions| && it == |RebaseAll(seen, acc)|
        invariant tripSessions == RebaseAll(seen, acc) + rest
        invariant seen + rest == old(tripSessions)
        decreases |rest|
      {
        var t := tripSessions[it];
        RebaseAppend(seen, t, acc);
        Walk(RebaseAll(seen, acc), rest, Rebase(t, acc));
        Walk(seen, rest, t);
        t := t.(accTrip := Add32(t.accRestart, Sub32(acc, t.accBatch)));
        t := t.(accBatch := 0, accRestart := t.accTrip);
        tripSessions := tripSessions[it := t];
        it := it + 1;
        seen, rest := seen + [rest[0]], rest[1..];
      }
      assert seen == old(tripSessions);
    }

    /** stopTripBatchingMultiplex for a trip that is there, erasing its session; the hardware is
      * stopped with the last one. */
    method StopTrip(k: nat, acc: U32, restartOk: bool)
      requires k < |tripSessions|
      modifies this
      ensures Value() == Stopped(old(Value()), k, acc, restartOk).0
      ensures calls == old(calls) + Stopped(old(Value()), k, acc, restartOk).1
      ensures reported == old(reported)
    {
      if |tripSessions| == 1 {
        calls := calls + [Stop];
      }
      var t := tripSessions[k];
      if t.tbf == ongoingTripTBFInterval {
        tripWithOngoingTBFDropped := true;
      }
      if t.distance == ongoingTripDistance {
        tripWithOngoingTripDistanceDropped := true;
      }
      tripSessions := tripSessions[..k] + tripSessions[k + 1..];
      if tripSessions == [] {
        ongoingTripDistance, ongoingTripTBFInterval := 0, 0;
      } else {
        RestartTripBatching(acc, restartOk);
      }
    }

    /** startTripBatchingMultiplex; the hardware answers the query and the call at once. */
    method StartTrip(req: Request, acc: Option<U32>, ok: bool, locked: bool) returns (success: bool)
      modifies this
      ensures Value() == Started(old(Value()), req, acc, ok, locked).0
      ensures calls == old(calls) + Started(old(Value()), req, acc, ok, locked).1
      ensures success == Started(old(Value()), req, acc, ok, locked).2
      ensures reported == old(reported)
    {
      if tripSessions == [] {
        tripSessions := Put([], Trip(req.id, 0, 0, 0, req.distance, req.tbf));
        calls := calls + [Start(req.distance, req.tbf)];
        if locked || ok {
          ongoingTripDistance, ongoingTripTBFInterval := req.distance, req.tbf;
        } else {
          tripSessions := [];
        }
        return ok;
      }
      var tripDistance, tripInterval := ongoingTripDistance, ongoingTripTBFInterval;
      var needsRestart := false;
      if tripInterval > req.tbf {
        tripInterval := req.tbf;
        needsRestart := true;
      }
      match acc {
        case None =>
          if req.distance < tripDistance {
            tripDistance := req.distance;
            needsRestart := true;
          }
        case Some(accumulated) =>
          var remainingDistance := Sub32(tripDistance, accumulated);
          if req.distance < remainingDistance {
            tripDistance := req.distance;
            needsRestart := true;
          } else if needsRestart {
            tripDistance := remainingDistance;
          }
          tripSessions := Put(tripSessions, Trip(req.id, accumulated, 0, 0, req.distance, req.tbf));
      }
      success := true;
      if needsRestart {
        ongoingTripDistance, ongoingTripTBFInterval := tripDistance, tripInterval;
        RestampTrips();
        calls := calls + [ReStart(tripDistance, tripInterval)];
        success := ok;
      }
    }

    method RestampTrips()
      modifies this`tripSessions
      ensures tripSessions == RestampAll(old(tripSessions))
    {
      ghost var seen: seq<Trip>, rest := [], tripSessions;
      var it := 0;
      while it < |tripSessions|
        invariant it <= |tripSessions| && it == |RestampAll(seen)|
        invariant tripSessions == RestampAll(seen) + rest
        invariant seen + rest == old(tripSessions)
        decreases |rest|
      {
        var t := tripSessions[it];
        RestampAppend(seen, t);
        Walk(RestampAll(seen), rest, Restamp(t));
        Walk(seen, rest, t);
        tripSessions := tripSessions[it := t.(accBatch := 0, accRestart := t.accTrip)];
        it := it + 1;
        seen, rest := seen + [rest[0]], rest[1..];
      }
      assert seen == old(tripSessions);
    }

    /** restartSessions, when the engine comes up or its lock is lifted. */
    method RestartSessions(ok: bool)
      modifies this`ongoingTripDistance, this`ongoingTripTBFInterval, this`calls
      ensures Value() == Resumed(old(Value()), ok).0
      ensures calls == old(calls) + Resumed(old(Value()), ok).1
    {
      if |tripSessions| > 0 {
        ongoingTripDistance, ongoingTripTBFInterval := Least();
        calls := calls + [Start(ongoingTripDistance, ongoingTripTBFInterval)];
        if !ok {
          ongoingTripDistance, ongoingTripTBFInterval := 0, 0;
        }
      }
    }
  }
}
