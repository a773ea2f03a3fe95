/** Whole runs: the hardware goes, reports, and trips start and stop, in any order. */
module TripWorld {
  import opened Wrappers
  import opened TripBatching
  import opened TripTheorems
  import opened TripRuns

  /** The adapter's batch; whether the hardware runs, and its distance since it began; and the distance
    * gone in all. */
  datatype World = World(b: Batch, running: bool, gone: U32, odo: int)

  /** `ok` is the answer of the hardware if it is called, `answered` whether the query of a join
    * succeeds, `locked` whether the engine lock is disabled. A stop uses whatever distance comes back
    * from its query, and ignores an error. */
  datatype Move =
    | Go(d: nat)
    | Report(ok: bool)
    | StopTrip(k: nat, answer: U32, ok: bool)
    | StartTrip(req: Request, answered: bool, ok: bool, locked: bool)
    | EngineDown
    | EngineUp(ok: bool)

  const NOTHING := World(Batch([], 0, 0, false, false), false, 0, 0)

  /** The hardware counter does not wrap, and a new session has an id of its own. */
  predicate Enabled(w: World, move: Move) {
    match move
    case Go(d) => w.gone + d < TWO32
    case StopTrip(k, _, _) => k < |w.b.trips|
    case StartTrip(req, _, _, _) => Lookup(w.b.trips, req.id).None?
    case _ => true
  }

  /** What the calls make of the hardware; a stop is never refused, and a refused restart leaves it. */
  function After(w: World, b: Batch, calls: seq<Call>, ok: bool): World {
    if calls == [] || (calls[0].ReStart? && !ok) then w.(b := b)
    else World(b, calls[0] != Stop && ok, 0, w.odo)
  }

  function Answer(w: World, answered: bool): Option<U32> {
    if answered then Some(w.gone) else None
  }

  function Next(w: World, move: Move): World
    requires Enabled(w, move)
  {
    match move
    case Go(d) => w.(gone := if w.running then w.gone + d else w.gone, odo := w.odo + d)
    case Report(ok) =>
      var (b, calls) := Completed(w.b, w.gone, ok);
      After(w, b, calls, ok)
    case StopTrip(k, answer, ok) =>
      var (b, calls) := Stopped(w.b, k, answer, ok);
      After(w, b, calls, ok)
    case StartTrip(req, answered, ok, locked) =>
      var (b, calls, _) := Started(w.b, req, Answer(w, answered), ok, locked);
      After(w, b, calls, ok)
    case EngineDown => w.(running := false)
    case EngineUp(ok) =>
      var (b, calls) := Resumed(w.b, ok);
      After(w, b, calls, ok)
  }

  predicate Tells(w: World, move: Move, id: U32) {
    move.Report? && id in Ids(Done(w.b.trips, w.gone))
  }

  // ---------- The account of one trip ----------

  /** The distance in all at which the trip should complete; how much later the adapter will see it
    * complete; and what the next report will add to its record. */
  datatype Account = Account(goal: int, lost: int, pending: int)

  /** A join that restarts the batch forgets what was not on record; what the hardware counts from
    * before a refused restart will be counted again. */
  function Forget(a: Account, gone: U32): Account {
    a.(lost := a.lost + a.pending - gone, pending := gone)
  }

  predicate JoinRestarts(w: World, req: Request, answered: bool) {
    w.b.trips != [] && JoinDistance(w.b, req, Answer(w, answered)).1
  }

  predicate StopRestarts(w: World, k: nat, answer: U32, ok: bool)
    requires k < |w.b.trips|
  {
    ok && 1 < |w.b.trips| && Restarts(Without(w.b, k), answer)
  }

  function NextAccount(w: World, move: Move, id: U32, o: Option<Account>): Option<Account>
    requires Enabled(w, move)
  {
    if move.StartTrip? then
      var StartTrip(req, answered, ok, locked) := move;
      var recorded := if w.b.trips == [] then ok || locked else answered;
      var joined := if req.id == id && recorded then Some(Account(w.odo + req.distance, 0, 0)) else o;
      if joined.Some? && JoinRestarts(w, req, answered) then Some(Forget(joined.value, if ok then 0 else w.gone))
      else joined
    else if o.None? then None
    else
      var a := o.value;
      match move
      case Go(d) => Some(if w.running then a.(pending := a.pending + d) else a.(lost := a.lost + d))
      case Report(_) => if a.goal + a.lost <= w.odo then None else Some(a.(pending := 0))
      case StopTrip(k, answer, ok) =>
        if w.b.trips[k].id == id then None
        else if StopRestarts(w, k, answer, ok) then Some(a.(lost := a.lost + w.gone - answer, pending := 0))
        else o
      case EngineDown => o
      case EngineUp(_) => Some(a.(lost := a.lost + w.gone, pending := a.pending - w.gone))
  }

  /** The account agrees with the adapter's record of the trip. */
  predicate Agrees(w: World, id: U32, a: Option<Account>) {
    match Lookup(w.b.trips, id)
    case None => a == None
    case Some(t) =>
      && a.Some?
      && w.odo + ToGo(t, w.gone) == a.value.goal + a.value.lost
      && Travelled(t, w.gone) - t.accTrip == a.value.pending
  }

  /** The distance of the trip is a 32-bit number for the hardware, and for the answer to a stop. */
  predicate Fits(w: World, move: Move, id: U32) {
    var o := Lookup(w.b.trips, id);
    o.Some? ==> NoWrap(o.value, w.gone) && (move.StopTrip? ==> NoWrap(o.value, move.answer))
  }

  /** A trip is told in a report exactly when its goal, put off by what was lost, is reached. */
  lemma ReportTellsIff(w: World, ok: bool, id: U32, a: Option<Account>)
    requires DistinctIds(w.b.trips) && Agrees(w, id, a) && Fits(w, Report(ok), id)
    ensures Tells(w, Report(ok), id) <==> a.Some? && a.value.goal + a.value.lost <= w.odo
  {
    LookupLive(w.b.trips, w.gone, id);
    var o := Lookup(w.b.trips, id);
    if o.Some? { NowIsExact(o.value, w.gone); }
  }

  lemma ReportAgrees(w: World, ok: bool, id: U32, a: Option<Account>)
    requires DistinctIds(w.b.trips) && Agrees(w, id, a) && Fits(w, Report(ok), id)
    ensures Agrees(Next(w, Report(ok)), id, NextAccount(w, Report(ok), id, a))
    ensures DistinctIds(Next(w, Report(ok)).b.trips)
  {
    LookupReported(w.b, w.gone, ok, id);
    DistinctReported(w.b, w.gone, ok);
    SplitCount(w.b.trips, w.gone);
    var o := Lookup(w.b.trips, id);
    if o.Some? { NowIsExact(o.value, w.gone); }
  }

  lemma StopAgrees(w: World, k: nat, answer: U32, ok: bool, id: U32, a: Option<Account>)
    requires DistinctIds(w.b.trips) && Agrees(w, id, a) && k < |w.b.trips|
    requires Fits(w, StopTrip(k, answer, ok), id)
    ensures var move := StopTrip(k, answer, ok);
            Agrees(Next(w, move), id, NextAccount(w, move, id, a)) && DistinctIds(Next(w, move).b.trips)
  {
    var left := Without(w.b, k);
    LookupWithout(w.b.trips, k, id);
    LookupRebased(left.trips, answer, id);
    DistinctRebased(left.trips, answer);
    var o := Lookup(left.trips, id);
    if o.Some? { NowIsExact(o.value, answer); }
  }

  lemma StartAgrees(w: World, move: Move, id: U32, a: Option<Account>)
    requires move.StartTrip? && Enabled(w, move)
    requires DistinctIds(w.b.trips) && Agrees(w, id, a)
    ensures Agrees(Next(w, move), id, NextAccount(w, move, id, a)) && DistinctIds(Next(w, move).b.trips)
  {
    var req := move.req;
    if w.b.trips != [] {
      LookupJoined(w.b, req, Answer(w, move.answered), id);
      DistinctJoined(w.b, req, Answer(w, move.answered));
    } else {
      var t := Trip(req.id, 0, 0, 0, req.distance, req.tbf);
      assert Lookup([t], id) == if req.id == id then Some(t) else Lookup([], id);
      assert [t][1..] == [];
    }
  }

  lemma StepAgrees(w: World, move: Move, id: U32, a: Option<Account>)
    requires DistinctIds(w.b.trips) && Agrees(w, id, a) && Fits(w, move, id) && Enabled(w, move)
    ensures Agrees(Next(w, move), id, NextAccount(w, move, id, a))
    ensures DistinctIds(Next(w, move).b.trips)
  {
    match move
    case Report(ok) => ReportAgrees(w, ok, id, a);
    case StopTrip(k, answer, ok) => StopAgrees(w, k, answer, ok, id, a);
    case StartTrip(_, _, _, _) => StartAgrees(w, move, id, a);
    case _ =>
  }

  // ---------- Any run ----------

  /** Every move can be made, and the distance of the trip never wraps. */
  predicate FittingRun(w: World, moves: seq<Move>, id: U32)
    decreases |moves|
  {
    moves == [] || (&& Enabled(w, moves[0]) && Fits(w, moves[0], id)
                    && FittingRun(Next(w, moves[0]), moves[1..], id))
  }

  function Run(w: World, moves: seq<Move>, id: U32): World
    requires FittingRun(w, moves, id)
    decreases |moves|
  {
    if moves == [] then w else Run(Next(w, moves[0]), moves[1..], id)
  }

  /** The distances in all at which the trip is told as completed. */
  function TellsOf(w: World, moves: seq<Move>, id: U32): seq<int>
    requires FittingRun(w, moves, id)
    decreases |moves|
  {
    if moves == [] then []
    else (if Tells(w, moves[0], id) then [w.odo] else []) + TellsOf(Next(w, moves[0]), moves[1..], id)
  }

  function AccountAfter(w: World, moves: seq<Move>, id: U32, a: Option<Account>): Option<Account>
    requires FittingRun(w, moves, id)
    decreases |moves|
  {
    if moves == [] then a else AccountAfter(Next(w, moves[0]), moves[1..], id, NextAccount(w, moves[0], id, a))
  }

  /** The same from the accounts alone: at the first report at or past the goal and what was lost. */
  function Settled(w: World, moves: seq<Move>, id: U32, a: Option<Account>): seq<int>
    requires FittingRun(w, moves, id)
    decreases |moves|
  {
    if moves == [] then []
    else
      (if moves[0].Report? && a.Some? && a.value.goal + a.value.lost <= w.odo then [w.odo] else [])
      + Settled(Next(w, moves[0]), moves[1..], id, NextAccount(w, moves[0], id, a))
  }

  /** Over any run, with refused calls, wrong or missing answers, reports at any distance and engine
    * restarts: the account agrees with the adapter's record, and the trip is told exactly when the
    * account says. */
  lemma {:induction false} RunAgrees(w: World, moves: seq<Move>, id: U32, a: Option<Account>)
    requires DistinctIds(w.b.trips) && Agrees(w, id, a) && FittingRun(w, moves, id)
    ensures Agrees(Run(w, moves, id), id, AccountAfter(w, moves, id, a))
    ensures DistinctIds(Run(w, moves, id).b.trips)
    ensures TellsOf(w, moves, id) == Settled(w, moves, id, a)
    decreases |moves|
  {
    if moves != [] {
      StepAgrees(w, moves[0], id, a);
      if moves[0].Report? { ReportTellsIff(w, moves[0].ok, id, a); }
      RunAgrees(Next(w, moves[0]), moves[1..], id, NextAccount(w, moves[0], id, a));
    }
  }

  // ---------- What a join loses ----------

  /** The move puts the distance of the trip on record. */
  predicate Records(w: World, move: Move, id: U32)
    requires Enabled(w, move)
  {
    match move
    case Report(_) => true
    case StopTrip(k, answer, ok) => StopRestarts(w, k, answer, ok)
    case StartTrip(req, answered, ok, locked) =>
      JoinRestarts(w, req, answered) || (req.id == id && if w.b.trips == [] then ok || locked else answered)
    case _ => false
  }

  /** What the hardware counts during the move. */
  function Gained(w: World, move: Move): nat {
    if move.Go? && w.running then move.d else 0
  }

  /** The engine stays up, and the hardware refuses no restart for a joining trip. */
  predicate Obliging(w: World, move: Move) {
    && !move.EngineDown? && !move.EngineUp?
    && (move.StartTrip? && !move.ok ==> !JoinRestarts(w, move.req, move.answered))
  }

  predicate ObligingRun(w: World, moves: seq<Move>, id: U32)
    requires FittingRun(w, moves, id)
    decreases |moves|
  {
    moves == [] || (Obliging(w, moves[0]) && ObligingRun(Next(w, moves[0]), moves[1..], id))
  }

  /** What the hardware has gone since the trip's last record. */
  function GoneSince(w: World, moves: seq<Move>, id: U32, since: int): int
    requires FittingRun(w, moves, id)
    decreases |moves|
  {
    if moves == [] then since
    else
      var next := if Records(w, moves[0], id) then 0 else since + Gained(w, moves[0]);
      GoneSince(Next(w, moves[0]), moves[1..], id, next)
  }

  lemma {:induction false} PendingIsGoneSince(w: World, moves: seq<Move>, id: U32, a: Option<Account>, since: int)
    requires FittingRun(w, moves, id) && (a.Some? ==> a.value.pending == since)
    requires ObligingRun(w, moves, id)
    ensures var after := AccountAfter(w, moves, id, a);
            after.Some? ==> after.value.pending == GoneSince(w, moves, id, since)
    decreases |moves|
  {
    if moves != [] {
      var next := if Records(w, moves[0], id) then 0 else since + Gained(w, moves[0]);
      PendingIsGoneSince(Next(w, moves[0]), moves[1..], id, NextAccount(w, moves[0], id, a), next);
    }
  }

  /** Over any run from the start in which the engine stays up and no join's restart is refused: a join
    * that restarts the batch takes from a running trip's own distance exactly what the hardware has
    * gone since the trip's last record; nothing is lost if and only if it has not moved since. */
  lemma JoinLosesIff(moves: seq<Move>, req: Request, answered: bool, id: U32)
    requires FittingRun(NOTHING, moves, id) && ObligingRun(NOTHING, moves, id)
    requires var w := Run(NOTHING, moves, id);
      && Lookup(w.b.trips, req.id).None? && Lookup(w.b.trips, id).Some? && JoinRestarts(w, req, answered)
    ensures var w := Run(NOTHING, moves, id);
            var after := Next(w, StartTrip(req, answered, true, false));
            var since := GoneSince(NOTHING, moves, id, 0);
            var (t, o) := (Lookup(w.b.trips, id).value, Lookup(after.b.trips, id));
      && o.Some?
      && Travelled(t, w.gone) - Travelled(o.value, after.gone) == since
      && (Travelled(o.value, after.gone) == Travelled(t, w.gone) <==> since == 0)
  {
    var w := Run(NOTHING, moves, id);
    RunAgrees(NOTHING, moves, id, None);
    PendingIsGoneSince(NOTHING, moves, id, None, 0);
    LookupJoined(w.b, req, Answer(w, answered), id);
  }

  // ---------- Runs in which every trip is told on time ----------

  /** The hardware has not passed the armed distance, which is the least to go. */
  ghost predicate OnCourse(w: World) {
    && Armed(w.b) && AllRecorded(w.b.trips, w.gone)
    && (w.b.trips != [] ==> w.running && w.gone <= w.b.distance)
  }

  /** The hardware reports when it reaches the armed distance, and maybe before; a trip joins with its
    * query answered and, if the batch has to restart, with all records current; one stops, its query
    * answered rightly, under the condition that keeps the batch armed; the engine stays up while trips
    * run. */
  ghost predicate Smooth(w: World, move: Move) {
    && Enabled(w, move)
    && match move
       case Go(d) => w.b.trips != [] ==> w.gone + d <= w.b.distance
       case Report(ok) => ok
       case EngineDown => w.b.trips == []
       case EngineUp(_) => w.b.trips == []
       case StopTrip(k, answer, ok) => ok && answer == w.gone && StopFits(w.b, k, w.gone)
       case StartTrip(req, answered, ok, _) =>
         && ok && 0 < req.distance
         && (w.b.trips != [] ==> answered && w.gone < w.b.distance)
         && (JoinRestarts(w, req, answered) ==> forall t :: t in w.b.trips ==> UpToDate(t, w.gone))
  }

  lemma GoOnCourse(w: World, d: nat)
    requires OnCourse(w) && Smooth(w, Go(d))
    ensures OnCourse(Next(w, Go(d)))
  {
    if w.b.trips != [] {
      forall t | t in w.b.trips ensures Recorded(t, w.gone + d) { assert w.b.distance <= ToGo(t, 0); }
    }
  }

  lemma RebasedOnCourse(b: Batch, trips: seq<Trip>, acc: U32, odo: int)
    requires Armed(b) && AllNoWrap(trips, acc) && b.trips == RebaseAll(trips, acc)
    ensures OnCourse(World(b, true, 0, odo))
  {
    RebaseConserves(trips, acc);
    forall r | r in b.trips ensures Recorded(r, 0) {
      var i :| 0 <= i < |trips| && b.trips[i] == r;
      assert b.distance <= ToGo(r, 0);
    }
  }

  lemma ReportOnCourse(w: World)
    requires OnCourse(w)
    ensures OnCourse(Next(w, Report(true)))
  {
    if w.b.trips != [] {
      LiveIsUpToDate(w.b.trips, w.gone);
      if w.gone < w.b.distance {
        EarlyReportArms(w.b, w.gone);
      } else {
        ReportArms(w.b, w.gone);
        RebasedOnCourse(Next(w, Report(true)).b, Live(w.b.trips, w.gone), w.gone, w.odo);
      }
    }
  }

  lemma StopOnCourse(w: World, k: nat)
    requires OnCourse(w) && Smooth(w, StopTrip(k, w.gone, true))
    ensures OnCourse(Next(w, StopTrip(k, w.gone, true)))
  {
    var left := Without(w.b, k);
    StopArmsIff(w.b, k, w.gone);
    assert forall t :: t in left.trips ==> t in w.b.trips;
    if left.trips != [] && Restarts(left, w.gone) {
      RebasedOnCourse(Next(w, StopTrip(k, w.gone, true)).b, left.trips, w.gone, w.odo);
    }
  }

  lemma StartOnCourse(w: World, move: Move)
    requires move.StartTrip? && OnCourse(w) && Smooth(w, move)
    ensures OnCourse(Next(w, move))
  {
    var req := move.req;
    if w.b.trips == [] {
      FirstStartArms(w.b, req, Answer(w, move.answered), move.locked);
    } else {
      var t := Trip(req.id, w.gone, 0, 0, req.distance, req.tbf);
      if JoinRestarts(w, req, move.answered) { NearestAmongCurrent(w.b, w.gone); }
      JoinArmsIff(w.b, req, w.gone);
      PutAdds(w.b.trips, t);
      RestampRecorded(Put(w.b.trips, t));
    }
  }

  lemma NearestAmongCurrent(b: Batch, gone: U32)
    requires b.trips != [] && Armed(b) && forall t :: t in b.trips ==> UpToDate(t, gone)
    ensures NearestIsCurrent(b.trips, gone)
  {
    var n :| n in b.trips && ToGo(n, 0) == b.distance;
    forall u | u in b.trips ensures ToGo(n, gone) <= ToGo(u, gone) { assert b.distance <= ToGo(u, 0); }
  }

  lemma {:induction false} RestampRecorded(trips: seq<Trip>)
    requires forall t :: t in trips ==> t.accTrip < t.distance
    ensures AllRecorded(RestampAll(trips), 0)
  {
    if trips != [] { RestampRecorded(trips[1..]); }
  }

  lemma StepOnCourse(w: World, move: Move)
    requires OnCourse(w) && Smooth(w, move)
    ensures OnCourse(Next(w, move))
  {
    match move
    case Go(d) => GoOnCourse(w, d);
    case Report(ok) => ReportOnCourse(w);
    case StopTrip(k, answer, ok) => StopOnCourse(w, k);
    case StartTrip(_, _, _, _) => StartOnCourse(w, move);
    case _ =>
  }

  /** The move neither stops nor starts the trip. */
  predicate Leaves(w: World, move: Move, id: U32)
    requires Enabled(w, move)
  {
    match move
    case StopTrip(k, _, _) => w.b.trips[k].id != id
    case StartTrip(req, _, _, _) => req.id != id
    case _ => true
  }

  ghost predicate SmoothRun(w: World, moves: seq<Move>, id: U32)
    decreases |moves|
  {
    moves == [] || (Smooth(w, moves[0]) && Leaves(w, moves[0], id) && SmoothRun(Next(w, moves[0]), moves[1..], id))
  }

  lemma OnCourseFits(w: World, move: Move, id: U32)
    requires OnCourse(w) && Smooth(w, move)
    ensures Fits(w, move, id)
  {
    LookupIn(w.b.trips, id);
  }

  lemma {:induction false} SmoothFits(w: World, moves: seq<Move>, id: U32)
    requires OnCourse(w) && SmoothRun(w, moves, id)
    ensures FittingRun(w, moves, id) && OnCourse(Run(w, moves, id))
    decreases |moves|
  {
    if moves != [] {
      OnCourseFits(w, moves[0], id);
      StepOnCourse(w, moves[0]);
      SmoothFits(Next(w, moves[0]), moves[1..], id);
    }
  }

  /** On course no trip is past its goal; with its goal reached the report is due. */
  lemma GoalAhead(w: World, id: U32, a: Account)
    requires OnCourse(w) && Agrees(w, id, Some(a)) && a.lost == 0
    ensures w.odo <= a.goal && (w.odo == a.goal ==> w.gone == w.b.distance)
  {
    LookupIn(w.b.trips, id);
    assert w.b.distance <= ToGo(Lookup(w.b.trips, id).value, 0);
  }

  lemma SmoothStep(w: World, move: Move, id: U32, a: Account)
    requires OnCourse(w) && Smooth(w, move) && Leaves(w, move, id)
    requires Agrees(w, id, Some(a)) && a.lost == 0
    ensures var o := NextAccount(w, move, id, Some(a));
      && Agrees(Next(w, move), id, o)
      && (Tells(w, move, id) <==> o.None?)
      && (o.None? ==> w.odo == a.goal)
      && (o.Some? ==> o.value.goal == a.goal && o.value.lost == 0)
  {
    OnCourseFits(w, move, id);
    StepAgrees(w, move, id, Some(a));
    GoalAhead(w, id, a);
    if move.Report? { ReportTellsIff(w, move.ok, id, Some(a)); }
    LookupIn(w.b.trips, id);
  }

  lemma {:induction false} NeverTold(w: World, moves: seq<Move>, id: U32)
    requires OnCourse(w) && SmoothRun(w, moves, id) && FittingRun(w, moves, id) && Agrees(w, id, None)
    ensures TellsOf(w, moves, id) == [] && Lookup(Run(w, moves, id).b.trips, id).None?
    decreases |moves|
  {
    if moves != [] {
      StepAgrees(w, moves[0], id, None);
      if moves[0].Report? { ReportTellsIff(w, moves[0].ok, id, None); }
      StepOnCourse(w, moves[0]);
      NeverTold(Next(w, moves[0]), moves[1..], id);
    }
  }

  /** While other trips join, complete and stop: a trip is told exactly once, at exactly its distance,
    * or it is still running and its distance is not passed. */
  lemma {:induction false} ToldOnTime(w: World, moves: seq<Move>, id: U32, a: Account)
    requires OnCourse(w) && SmoothRun(w, moves, id)
    requires Agrees(w, id, Some(a)) && a.lost == 0
    ensures FittingRun(w, moves, id)
    ensures var after := Run(w, moves, id);
            var live := Lookup(after.b.trips, id).Some?;
      && TellsOf(w, moves, id) == (if live then [] else [a.goal])
      && (live ==> after.odo <= a.goal && (after.odo == a.goal ==> after.gone == after.b.distance))
    decreases |moves|
  {
    SmoothFits(w, moves, id);
    if moves == [] {
      GoalAhead(w, id, a);
    } else {
      var next, o := Next(w, moves[0]), NextAccount(w, moves[0], id, Some(a));
      SmoothStep(w, moves[0], id, a);
      StepOnCourse(w, moves[0]);
      if o.None? {
        NeverTold(next, moves[1..], id);
      } else {
        ToldOnTime(next, moves[1..], id, o.value);
      }
    }
  }

  /** The hardware goes to the armed distance, then reports. */
  function DriveMove(w: World): Move
    requires w.gone <= w.b.distance
  {
    if w.gone < w.b.distance then Go(w.b.distance - w.gone) else Report(true)
  }

  /** The moves are just that, over and over, until no trip is left. */
  predicate Drives(w: World, moves: seq<Move>)
    decreases |moves|
  {
    if moves == [] then w.b.trips == []
    else
      && w.b.trips != [] && w.gone <= w.b.distance && moves[0] == DriveMove(w)
      && Drives(Next(w, moves[0]), moves[1..])
  }

  function ReportsIn(moves: seq<Move>): nat {
    if moves == [] then 0 else (if moves[0].Report? then 1 else 0) + ReportsIn(moves[1..])
  }

  lemma DriveStep(w: World)
    requires OnCourse(w) && w.b.trips != []
    ensures var next := Next(w, DriveMove(w));
      && Smooth(w, DriveMove(w)) && OnCourse(next)
      && if DriveMove(w).Go? then next.b == w.b && next.gone == w.b.distance else |next.b.trips| < |w.b.trips|
  {
    StepOnCourse(w, DriveMove(w));
    if w.gone == w.b.distance { ReportArms(w.b, w.gone); }
  }

  /** Driving on until no trip is left takes no more reports than there are trips. */
  lemma {:induction false} DriveEnds(w: World) returns (moves: seq<Move>)
    requires OnCourse(w)
    ensures Drives(w, moves) && ReportsIn(moves) <= |w.b.trips|
    decreases |w.b.trips|, w.b.distance - w.gone
  {
    if w.b.trips == [] {
      moves := [];
    } else {
      DriveStep(w);
      var rest := DriveEnds(Next(w, DriveMove(w)));
      moves := [DriveMove(w)] + rest;
      assert moves[1..] == rest;
    }
  }

  lemma {:induction false} DriveIsSmooth(w: World, moves: seq<Move>, id: U32)
    requires OnCourse(w) && Drives(w, moves)
    ensures SmoothRun(w, moves, id)
    decreases |moves|
  {
    if moves != [] {
      DriveStep(w);
      DriveIsSmooth(Next(w, moves[0]), moves[1..], id);
    }
  }

  lemma {:induction false} DriveEmpties(w: World, moves: seq<Move>, id: U32)
    requires OnCourse(w) && Drives(w, moves) && FittingRun(w, moves, id)
    ensures Run(w, moves, id).b.trips == []
    decreases |moves|
  {
    if moves != [] {
      DriveStep(w);
      DriveEmpties(Next(w, moves[0]), moves[1..], id);
    }
  }

  /** When no trip joins or stops any more, the reports until none is left, which are as many as there
    * are trips at most (DriveEnds), tell each of them at its distance. */
  lemma EveryTripTold(w: World, moves: seq<Move>, id: U32, a: Account)
    requires OnCourse(w) && Drives(w, moves)
    requires Agrees(w, id, Some(a)) && a.lost == 0
    ensures FittingRun(w, moves, id) && TellsOf(w, moves, id) == [a.goal]
  {
    DriveIsSmooth(w, moves, id);
    ToldOnTime(w, moves, id, a);
    DriveEmpties(w, moves, id);
  }

  // ---------- Runs in which a trip is late ----------

  /** Nothing clears the mark that the armed distance was dropped: after any run since, a stop that
    * leaves a trip restarts the batch with the least recorded distance. */
  lemma {:induction false} DroppedForGood(w: World, moves: seq<Move>, id: U32, k: nat, ok: bool)
    requires w.b.distanceDropped && FittingRun(w, moves, id)
    requires var b := Run(w, moves, id).b;
             k < |b.trips| && 1 < |b.trips| && forall t :: t in b.trips ==> t.accTrip < t.distance
    ensures var after := Run(w, moves, id);
      && after.b.distanceDropped
      && Stopped(after.b, k, after.gone, ok).1 ==
         [ReStart(LeastRemaining(Without(after.b, k).trips), NewTbf(Without(after.b, k)).0)]
    decreases |moves|
  {
    if moves == [] {
      DroppedRearms(w.b, k, w.gone, ok);
    } else {
      DroppedForGood(Next(w, moves[0]), moves[1..], id, k, ok);
    }
  }

  /** Trips 1 and 2 have started, one after the other, and the hardware has gone some distance. */
  function TwoGone(d1: U32, tbf1: U32, d2: U32, tbf2: U32, gone: U32): World
    requires 0 < d1 <= d2
  {
    TwoStart(d1, tbf1, d2, tbf2);
    var w := Next(NOTHING, StartTrip(Request(1, d1, tbf1), true, true, false));
    Next(Next(w, StartTrip(Request(2, d2, tbf2), true, true, false)), Go(gone))
  }

  lemma FirstStart(req: Request)
    ensures Next(NOTHING, StartTrip(req, true, true, false)) ==
            World(Batch([Trip(req.id, 0, 0, 0, req.distance, req.tbf)], req.distance, req.tbf, false, false),
                  true, 0, 0)
  {
  }

  lemma TwoStart(d1: U32, tbf1: U32, d2: U32, tbf2: U32)
    requires 0 < d1 <= d2
    ensures var w := Next(NOTHING, StartTrip(Request(1, d1, tbf1), true, true, false));
      && Enabled(w, StartTrip(Request(2, d2, tbf2), true, true, false))
      && Next(w, StartTrip(Request(2, d2, tbf2), true, true, false)) ==
         World(Batch([Trip(1, 0, 0, 0, d1, tbf1), Trip(2, 0, 0, 0, d2, tbf2)],
                     d1, if tbf2 < tbf1 then tbf2 else tbf1, false, false), true, 0, 0)
  {
    var t1, t2 := Trip(1, 0, 0, 0, d1, tbf1), Trip(2, 0, 0, 0, d2, tbf2);
    FirstStart(Request(1, d1, tbf1));
    assert [t1][1..] == [] && [t1, t2][1..] == [t2] && [t2][1..] == [];
    assert Lookup([t1], 2) == Lookup([], 2);
    assert Put([t1], t2) == [t1, t2] by { assert Put([], t2) == [t2]; }
    assert RestampAll([t1, t2]) == [t1, t2] by { assert RestampAll([t2]) == [Restamp(t2)] + RestampAll([]); }
    assert Sub32(d1, 0) == d1;
  }

  /** Up to the armed distance two such trips are on course. */
  lemma TwoOnCourse(d1: U32, tbf1: U32, d2: U32, tbf2: U32, gone: U32)
    requires 0 < d1 <= d2 && gone <= d1
    ensures var w := TwoGone(d1, tbf1, d2, tbf2, gone);
      && OnCourse(w)
      && w == World(Batch([Trip(1, 0, 0, 0, d1, tbf1), Trip(2, 0, 0, 0, d2, tbf2)],
                          d1, if tbf2 < tbf1 then tbf2 else tbf1, false, false), true, gone, gone)
  {
    var m1 := StartTrip(Request(1, d1, tbf1), true, true, false);
    var m2 := StartTrip(Request(2, d2, tbf2), true, true, false);
    TwoStart(d1, tbf1, d2, tbf2);
    FirstStart(Request(1, d1, tbf1));
    var w1 := Next(NOTHING, m1);
    var w2 := Next(w1, m2);
    StepOnCourse(NOTHING, m1);
    assert forall t :: t in w1.b.trips ==> UpToDate(t, 0);
    StepOnCourse(w1, m2);
    StepOnCourse(w2, Go(gone));
  }

  lemma StopLeavesOne(b: Batch, k: nat, t: Trip, acc: U32)
    requires k < |b.trips| && Without(b, k).trips == [t] && Restarts(Without(b, k), acc)
    requires NoWrap(t, acc) && t.accTrip < t.distance && 0 < t.tbf
    ensures var after := Stopped(b, k, acc, true).0;
      && after.trips == [Rebase(t, acc)]
      && after.distance == NewDistance(Without(b, k), acc).0 && after.tbf == NewTbf(Without(b, k)).0
      && Left(after, t.id) == Some(ToGo(t, acc))
      && (InTime(after, acc, true) <==> after.distance <= ToGo(t, acc))
  {
    NowIsExact(t, acc);
    var r := Rebase(t, acc);
    assert [t][1..] == [] && [r][1..] == [];
    assert RebaseAll([t], acc) == [r] + RebaseAll([], acc);
    assert [r][0] in [r];
  }

  lemma LeastOfOne(t: Trip)
    requires t.accTrip < t.distance && 0 < t.tbf
    ensures LeastRemaining([t]) == t.distance - t.accTrip && LeastTbf([t]) == t.tbf
  {
    LeastRecorded([t]);
    LeastTbfIsLeast([t]);
  }

  /** Stopping the nearer of two trips before its report: the batch restarts with the whole distance of
    * the other, which has that much less to go, so that the report is late by what the hardware has
    * gone. */
  lemma DroppedRestartIsLate(d1: U32, d2: U32, tbf: U32, gone: U32)
    requires 0 < d1 <= d2 && 0 < tbf && 0 < gone < d1
    ensures var w := TwoGone(d1, tbf, d2, tbf, gone);
      && OnCourse(w) && Enabled(w, StopTrip(0, gone, true))
      && var after := Next(w, StopTrip(0, gone, true));
      && after.gone == 0 && after.b.distance == d2 && Left(after.b, 2) == Some(d2 - gone)
      && !InTime(after.b, gone, true)
  {
    TwoOnCourse(d1, tbf, d2, tbf, gone);
    var b, t := TwoGone(d1, tbf, d2, tbf, gone).b, Trip(2, 0, 0, 0, d2, tbf);
    assert b.trips[..0] + b.trips[1..] == [t];
    LeastOfOne(t);
    StopLeavesOne(b, 0, t, gone);
  }

  /** Stopping the faster of two trips: for the longer interval of the other the batch restarts with
    * the whole old distance, although the other has gone part of it. */
  lemma IntervalRestartIsLate(d1: U32, tbf1: U32, d2: U32, tbf2: U32, gone: U32)
    requires 0 < d1 < d2 && 0 < tbf2 < tbf1 && 0 < gone < d1
    ensures var w := TwoGone(d1, tbf1, d2, tbf2, gone);
      && OnCourse(w) && Enabled(w, StopTrip(1, gone, true))
      && var after := Next(w, StopTrip(1, gone, true));
      && after.gone == 0 && after.b.distance == d1 && after.b.tbf == tbf1 && Left(after.b, 1) == Some(d1 - gone)
      && !InTime(after.b, gone, true)
  {
    TwoOnCourse(d1, tbf1, d2, tbf2, gone);
    var b, t := TwoGone(d1, tbf1, d2, tbf2, gone).b, Trip(1, 0, 0, 0, d1, tbf1);
    assert b.trips[..1] + b.trips[2..] == [t];
    LeastOfOne(t);
    StopLeavesOne(b, 1, t, gone);
  }

  /** A nearer trip that joins a running one after some distance: the running trip has as much to go
    * as at its start, and will be told that much late. */
  lemma JoinIsLate(d1: U32, d2: U32, tbf: U32, gone: U32)
    requires 0 < d2 < d1 - gone
    ensures var w := Next(Next(NOTHING, StartTrip(Request(1, d1, tbf), true, true, false)), Go(gone));
            var join := StartTrip(Request(2, d2, tbf), true, true, false);
      && Lookup(w.b.trips, 2).None?
      && var after := Next(w, join);
      && after.gone == 0 && after.odo == gone && Left(after.b, 1) == Some(d1)
      && Agrees(after, 1, Some(Account(d1, gone, 0)))
  {
    FirstStart(Request(1, d1, tbf));
    var w := Next(Next(NOTHING, StartTrip(Request(1, d1, tbf), true, true, false)), Go(gone));
    var t := Trip(1, 0, 0, 0, d1, tbf);
    assert w == World(Batch([t], d1, tbf, false, false), true, gone, gone);
    assert [t][1..] == [];
    assert Lookup([t], 1) == Some(t) && Lookup([t], 2) == Lookup([], 2);
    assert Sub32(d1, gone) == d1 - gone;
    LookupJoined(w.b, Request(2, d2, tbf), Some(gone), 1);
  }

  /** A first trip that the hardware refuses while the engine lock is disabled: its client is told
    * failure, yet it is recorded, starts with the engine, and will be told as much late as was gone
    * before. */
  lemma LockedStartStays(req: Request, gone: nat)
    requires 0 < req.distance && gone < TWO32
    ensures var start := StartTrip(req, false, false, true);
            var w1 := Next(NOTHING, start);
            var w2 := Next(w1, Go(gone));
            var w3 := Next(w2, EngineUp(true));
      && !Started(NOTHING.b, req, None, false, true).2
      && Lookup(w1.b.trips, req.id).Some? && !w1.running
      && OnCourse(w3) && Agrees(w3, req.id, Some(Account(req.distance, gone, 0)))
  {
    var t := Trip(req.id, 0, 0, 0, req.distance, req.tbf);
    assert [t][1..] == [];
    assert Lookup([t], req.id) == Some(t) && DistinctIds([t]);
    LeastRecorded([t]);
    var b := Resumed(Batch([t], req.distance, req.tbf, false, false), true).0;
    assert b.trips == [t] && b.distance == req.distance;
    assert b.trips[0] in b.trips && ToGo(t, 0) == b.distance;
    assert Armed(b);
  }

  /** Trip 1 is on record with the distance gone, then trip 2 joins. */
  function JoinedAfterReport(d1: U32, d2: U32, tbf: U32, gone: U32): World
    requires 0 < gone < d1 && d1 - gone <= d2
  {
    ReportThenJoin(d1, d2, tbf, gone);
    var w := Next(Next(NOTHING, StartTrip(Request(1, d1, tbf), true, true, false)), Go(gone));
    Next(Next(w, Report(true)), StartTrip(Request(2, d2, tbf), true, true, false))
  }

  lemma ReportThenJoin(d1: U32, d2: U32, tbf: U32, gone: U32)
    requires 0 < gone < d1 && d1 - gone <= d2
    ensures var w := Next(Next(NOTHING, StartTrip(Request(1, d1, tbf), true, true, false)), Go(gone));
            var join := StartTrip(Request(2, d2, tbf), true, true, false);
      && Enabled(Next(w, Report(true)), join)
      && Next(Next(w, Report(true)), join) ==
         World(Batch([Trip(1, 0, gone, 0, d1, tbf), Trip(2, gone, 0, 0, d2, tbf)], d1, tbf, false, false),
               true, gone, gone)
  {
    FirstStart(Request(1, d1, tbf));
    var t, r, t2 := Trip(1, 0, 0, 0, d1, tbf), Trip(1, 0, gone, 0, d1, tbf), Trip(2, gone, 0, 0, d2, tbf);
    NowIsExact(t, gone);
    assert [t][1..] == [] && [r][1..] == [];
    assert Live([t], gone) == [Now(t, gone)] + Live([], gone) && Done([t], gone) == Done([], gone);
    assert Lookup([r], 2) == Lookup([], 2);
    assert Put([r], t2) == [r, t2] by { assert Put([], t2) == [t2]; }
    assert Sub32(d1, gone) == d1 - gone;
  }

  lemma ResumedPair(b: Batch, t1: Trip, t2: Trip)
    requires b.trips == [t1, t2] && t1.id != t2.id
    requires 0 < t1.distance - t1.accTrip <= t2.distance - t2.accTrip
    ensures Resumed(b, true).0.distance == t1.distance - t1.accTrip && DistinctIds(b.trips)
    ensures Lookup(b.trips, t1.id) == Some(t1) && Lookup(b.trips, t2.id) == Some(t2)
  {
    LeastRecorded(b.trips);
    assert b.trips[0] == t1 && b.trips[1] == t2;
    assert b.trips[1..] == [t2] && [t2][1..] == [];
    assert Lookup([t2], t1.id) == Lookup([], t1.id) && Lookup([t2], t2.id) == Some(t2);
    assert DistinctIds([t2]);
  }

  /** The engine restarts when trip 2 has just joined past the distance that trip 1 has still to go. At
    * the next report trip 2 is told as completed after that distance, however far it wanted to go, and
    * trip 1, which has gone its whole distance, is not. */
  lemma EngineRestartTellsWrongly(d1: U32, d2: U32, tbf: U32, gone: U32)
    requires 0 < gone < d1 < 2 * gone && d1 - gone < d2 && d2 + (2 * gone - d1) <= TWO32 && 0 < tbf
    ensures var w := Next(Next(JoinedAfterReport(d1, d2, tbf, gone), EngineDown), EngineUp(true));
            var due := Next(w, Go(d1 - gone));
      && w.b.distance == d1 - gone && due.gone == w.b.distance && due.odo == d1
      && Tells(due, Report(true), 2) && !Tells(due, Report(true), 1)
  {
    var w0 := JoinedAfterReport(d1, d2, tbf, gone);
    ReportThenJoin(d1, d2, tbf, gone);
    var t1, t2 := Trip(1, 0, gone, 0, d1, tbf), Trip(2, gone, 0, 0, d2, tbf);
    ResumedPair(w0.b, t1, t2);
    NowIsExact(t1, d1 - gone);
    WrapsIff(t2, d1 - gone);
    LookupLive([t1, t2], d1 - gone, 1);
    LookupLive([t1, t2], d1 - gone, 2);
  }
}
