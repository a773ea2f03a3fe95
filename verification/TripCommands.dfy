/** What any sequence of reports, stops and starts keeps of the hardware's distance and interval. */
module TripCommands {
  import opened Wrappers
  import opened TripBatching
  import opened TripTheorems
  import opened TripRuns

  // ---------- Any commands: what the hardware is armed with ----------

  datatype Command =
    | ReportDistance(acc: U32, ok: bool)
    | StopTrip(k: nat, acc: U32, ok: bool)
    | StartTrip(req: Request, answer: Option<U32>, ok: bool, locked: bool)
    | RestartSessions(ok: bool)

  predicate Possible(b: Batch, cmd: Command) { cmd.StopTrip? ==> cmd.k < |b.trips| }

  function Apply(b: Batch, cmd: Command): (Batch, seq<Call>)
    requires Possible(b, cmd)
  {
    match cmd
    case ReportDistance(acc, ok) => Completed(b, acc, ok)
    case StopTrip(k, acc, ok) => Stopped(b, k, acc, ok)
    case StartTrip(req, answer, ok, locked) =>
      var (after, calls, _) := Started(b, req, answer, ok, locked);
      (after, calls)
    case RestartSessions(ok) => Resumed(b, ok)
  }

  /** Distance and interval of the hardware after the calls; a stop is never refused. */
  function Drive(hw: Option<(U32, U32)>, calls: seq<Call>, ok: bool): Option<(U32, U32)> {
    if calls == [] then hw
    else
      match calls[0]
      case Start(d, i) => if ok then Some((d, i)) else hw
      case ReStart(d, i) => if ok then Some((d, i)) else hw
      case Stop => None
  }

  predicate InStep(hw: Option<(U32, U32)>, b: Batch) {
    hw == if b.trips == [] then None else Some((b.distance, b.tbf))
  }

  /** The hardware when the command comes: with the engine just up it is not armed. */
  function Before(hw: Option<(U32, U32)>, cmd: Command): Option<(U32, U32)> {
    if cmd.RestartSessions? then None else hw
  }

  /** What is refused and recorded all the same: a first trip while the engine lock is disabled, the
    * new distance or interval of a joining trip, and the trips of an engine restart. */
  predicate RefusedYetRecorded(b: Batch, cmd: Command) {
    && !cmd.ok
    && match cmd
       case StartTrip(req, answer, _, locked) =>
         if b.trips == [] then locked else JoinDistance(b, req, answer).0 != b.distance || req.tbf < b.tbf
       case RestartSessions(_) => b.trips != []
       case _ => false
  }

  lemma RestartInStep(b: Batch, acc: U32, ok: bool)
    ensures var (after, calls) := Restart(b, acc, ok);
      && |calls| <= 1 && InStep(Drive(Some((b.distance, b.tbf)), calls, ok), after)
      && (calls == [Stop] ==> after.trips == [] && after.distance == 0 && after.tbf == 0)
  {
  }

  lemma JoinInStepIff(b: Batch, req: Request, answer: Option<U32>, ok: bool, locked: bool)
    requires b.trips != []
    ensures var (after, calls, _) := Started(b, req, answer, ok, locked);
            InStep(Drive(Some((b.distance, b.tbf)), calls, ok), after) <==>
              !RefusedYetRecorded(b, StartTrip(req, answer, ok, locked))
  {
  }

  /** The hardware stays armed with what the adapter records, unless it refuses what is recorded all
    * the same. */
  lemma InStepIff(hw: Option<(U32, U32)>, b: Batch, cmd: Command)
    requires InStep(hw, b) && Possible(b, cmd)
    ensures var (after, calls) := Apply(b, cmd);
      && |calls| <= 1
      && (InStep(Drive(Before(hw, cmd), calls, cmd.ok), after) <==> !RefusedYetRecorded(b, cmd))
      && (calls == [Stop] ==> after.trips == [] && after.distance == 0 && after.tbf == 0)
  {
    match cmd
    case ReportDistance(acc, ok) =>
      SplitCount(b.trips, acc);
      RestartInStep(Sorted(b, acc), acc, ok);
    case StopTrip(k, acc, ok) =>
      RestartInStep(Without(b, k), acc, ok);
    case StartTrip(req, answer, ok, locked) =>
      if b.trips != [] { JoinInStepIff(b, req, answer, ok, locked); }
    case RestartSessions(ok) =>
  }

  // ---------- Any commands: the interval ----------

  function Tbfs(trips: seq<Trip>): seq<U32> {
    if trips == [] then [] else [trips[0].tbf] + Tbfs(trips[1..])
  }

  lemma {:induction false} InTbfs(trips: seq<Trip>, x: U32)
    ensures x in Tbfs(trips) <==> UsesTbf(trips, x)
  {
    if trips != [] {
      InTbfs(trips[1..], x);
      assert forall t :: t in trips <==> t == trips[0] || t in trips[1..];
    }
  }

  /** The interval is the least that a trip asks for. */
  ghost predicate Suits(b: Batch) {
    b.trips != [] ==> b.tbf in Tbfs(b.trips) && forall x :: x in Tbfs(b.trips) ==> 0 < x && b.tbf <= x
  }

  lemma {:induction false} SplitTbfs(trips: seq<Trip>, acc: U32, x: U32)
    ensures x in Tbfs(trips) <==> x in Tbfs(Live(trips, acc)) || x in Tbfs(Done(trips, acc))
  {
    if trips != [] { SplitTbfs(trips[1..], acc, x); }
  }

  lemma {:induction false} RebaseKeepsTbfs(trips: seq<Trip>, acc: U32)
    ensures Tbfs(RebaseAll(trips, acc)) == Tbfs(trips)
  {
    if trips != [] { RebaseKeepsTbfs(trips[1..], acc); }
  }

  lemma {:induction false} RestampKeepsTbfs(trips: seq<Trip>)
    ensures Tbfs(RestampAll(trips)) == Tbfs(trips)
  {
    if trips != [] { RestampKeepsTbfs(trips[1..]); }
  }

  lemma {:induction false} PutTbfs(trips: seq<Trip>, t: Trip, x: U32)
    requires Lookup(trips, t.id).None?
    ensures x in Tbfs(Put(trips, t)) <==> x == t.tbf || x in Tbfs(trips)
  {
    if trips != [] { PutTbfs(trips[1..], t, x); }
  }

  /** When trips have left, and the one with the running interval not unnoticed, the new interval is
    * the least again. */
  lemma LeftSuits(left: Batch, acc: U32)
    requires left.trips != [] && forall x :: x in Tbfs(left.trips) ==> 0 < x && left.tbf <= x
    requires left.tbfDropped || left.tbf in Tbfs(left.trips)
    ensures Suits(Restart(left, acc, true).0)
  {
    forall t | t in left.trips ensures 0 < t.tbf { InTbfs(left.trips, t.tbf); }
    LeastTbfIsLeast(left.trips);
    InTbfs(left.trips, LeastTbf(left.trips));
    forall x | x in Tbfs(left.trips) ensures LeastTbf(left.trips) <= x { InTbfs(left.trips, x); }
    RebaseKeepsTbfs(left.trips, acc);
  }

  lemma SortedSuits(b: Batch, acc: U32)
    requires Suits(b)
    ensures Suits(Completed(b, acc, true).0)
  {
    var left := Sorted(b, acc);
    SplitCount(b.trips, acc);
    forall x ensures x in Tbfs(b.trips) <==> x in Tbfs(left.trips) || x in Tbfs(Done(b.trips, acc)) {
      SplitTbfs(b.trips, acc, x);
    }
    InTbfs(Done(b.trips, acc), b.tbf);
    if Done(b.trips, acc) != [] && left.trips != [] { LeftSuits(left, acc); }
  }

  lemma {:induction false} TbfsConcat(a: seq<Trip>, b: seq<Trip>)
    ensures Tbfs(a + b) == Tbfs(a) + Tbfs(b)
  {
    if a == [] {
      assert a + b == b;
    } else {
      TbfsConcat(a[1..], b);
      assert (a + b)[1..] == a[1..] + b;
    }
  }

  lemma StoppedSuits(b: Batch, k: nat, acc: U32)
    requires Suits(b) && k < |b.trips|
    ensures Suits(Stopped(b, k, acc, true).0)
  {
    var t, left := b.trips[k], Without(b, k);
    var trips := left.trips;
    TbfsConcat(b.trips[..k], b.trips[k + 1..]);
    TbfsConcat(b.trips[..k], b.trips[k..]);
    assert b.trips == b.trips[..k] + b.trips[k..] && b.trips[k..] == [t] + b.trips[k + 1..];
    assert forall x :: x in Tbfs(b.trips) <==> x == t.tbf || x in Tbfs(trips);
    if trips != [] { LeftSuits(left, acc); }
  }

  lemma StartedSuits(b: Batch, req: Request, answer: Option<U32>, ok: bool, locked: bool)
    requires Suits(b) && 0 < req.tbf && Lookup(b.trips, req.id).None? && answer.Some?
    ensures Suits(Started(b, req, answer, ok, locked).0)
  {
    var trips := Put(b.trips, Trip(req.id, answer.value, 0, 0, req.distance, req.tbf));
    forall x ensures x in Tbfs(trips) <==> x == req.tbf || x in Tbfs(b.trips) {
      PutTbfs(b.trips, Trip(req.id, answer.value, 0, 0, req.distance, req.tbf), x);
    }
    RestampKeepsTbfs(trips);
  }

  lemma ResumedSuits(b: Batch)
    requires Suits(b)
    ensures Suits(Resumed(b, true).0)
  {
    if b.trips != [] {
      forall t | t in b.trips ensures 0 < t.tbf { InTbfs(b.trips, t.tbf); }
      LeastTbfIsLeast(b.trips);
      InTbfs(b.trips, LeastTbf(b.trips));
      forall x | x in Tbfs(b.trips) ensures LeastTbf(b.trips) <= x { InTbfs(b.trips, x); }
    }
  }

  /** A command that the hardware accepts; a new trip asks for an interval, and a query is answered. */
  predicate Accepted(b: Batch, cmd: Command) {
    && Possible(b, cmd) && cmd.ok
    && (cmd.StartTrip? ==> 0 < cmd.req.tbf && Lookup(b.trips, cmd.req.id).None? && cmd.answer.Some?)
  }

  ghost predicate AcceptedRun(b: Batch, cmds: seq<Command>)
    decreases |cmds|
  {
    cmds == [] || (Accepted(b, cmds[0]) && AcceptedRun(Apply(b, cmds[0]).0, cmds[1..]))
  }

  ghost function ApplyAll(b: Batch, cmds: seq<Command>): Batch
    requires AcceptedRun(b, cmds)
    decreases |cmds|
  {
    if cmds == [] then b else ApplyAll(Apply(b, cmds[0]).0, cmds[1..])
  }

  /** Over any accepted commands the interval is the least that a running trip asks for. */
  lemma {:induction false} RunSuits(b: Batch, cmds: seq<Command>)
    requires Suits(b) && AcceptedRun(b, cmds)
    ensures Suits(ApplyAll(b, cmds))
    decreases |cmds|
  {
    if cmds != [] {
      match cmds[0] {
        case ReportDistance(acc, ok) => SortedSuits(b, acc);
        case StopTrip(k, acc, ok) => StoppedSuits(b, k, acc);
        case StartTrip(req, answer, ok, locked) => StartedSuits(b, req, answer, ok, locked);
        case RestartSessions(ok) => ResumedSuits(b);
      }
      RunSuits(Apply(b, cmds[0]).0, cmds[1..]);
    }
  }
}
