/** The internet connection closed into a loop: the native handler (gps/gnss/NativeAgpsHandler.cpp)
  * answers each request through the message queue of the adapter (gps/gnss/GnssAdapter.cpp). */
module AgpsLoop {
  import opened AgpsMachine
  import opened AgpsRuns

  /** Messages on their way back to the machine. An OpenMsg may still have to ask for the type of
    * the packet data network of its access point; the answer comes back as a PdnMsg. */
  datatype Reply = OpenMsg(apn: string) | PdnMsg | FailedMsg | ClosedMsg

  datatype System = System(
    m: Machine,
    kind: AgpsType,      // the type of the latest request
    queue: seq<Reply>,   // first in, first out
    asked: nat,          // network type questions without an answer yet
    connected: bool,
    apn: string,
    told: set<int>)      // listed handles whose opening was reported since they joined

  datatype Move =
    | Join(sub: Sub, wanted: AgpsType)
    | Quit(handle: int)
    | Restart                                  // of the modem
    | Network(connected: bool, apn: string)    // network information from the system
    | Stray(reply: Reply)                      // a reply nobody asked for
    | Deliver(ask: bool)                       // the next message; ask when the library is there
    | TypeKnown                                // answer to a network type question

  const MAX_APN_LEN := 100

  /** The check of dataConnOpenCommand: not too long, and no zero character inside. */
  predicate ApnOk(apn: string) {
    |apn| <= MAX_APN_LEN && '\0' !in apn
  }

  /** The message sent for a callback to the framework. A request with a bad access point name is
    * answered by a nested event only (see Closes), never by a message. */
  function Answer(kind: AgpsType, connected: bool, apn: string, out: Output): seq<Reply> {
    if kind != WwanAny then []
    else
      match out
      case RequestConn =>
        if !connected then [FailedMsg] else if ApnOk(apn) then [OpenMsg(apn)] else []
      case ReleaseConn => [ClosedMsg]
      case _ => []
  }

  /** The callback reports the connection closed before it returns. */
  predicate Closes(kind: AgpsType, connected: bool, apn: string, out: Output) {
    kind == WwanAny && out == RequestConn && connected && !ApnOk(apn)
  }

  function Answers(kind: AgpsType, connected: bool, apn: string, outs: seq<Output>): seq<Reply> {
    if outs == [] then []
    else Answer(kind, connected, apn, outs[0]) + Answers(kind, connected, apn, outs[1..])
  }

  datatype DataItem = NetworkInfo(allTypes: bv64, apn: string) | OtherItem

  /** The latest network information among the items, else what was known. */
  function Known(items: seq<DataItem>, connected: bool, apn: string): (bool, string) {
    if items == [] then (connected, apn)
    else
      match items[|items| - 1]
      case NetworkInfo(allTypes, a) => (allTypes & 1 == 1, a)  // bit TYPE_MOBILE
      case OtherItem => Known(items[..|items| - 1], connected, apn)
  }

  /** The latest network information counts: connected when the bit of the mobile type, which is the
    * lowest, is set; items after it and all before it do not matter. */
  lemma {:induction false} KnownIsLatest(items: seq<DataItem>, i: nat, connected: bool, apn: string)
    requires i < |items| && items[i].NetworkInfo?
    requires forall j :: i < j < |items| ==> items[j].OtherItem?
    ensures Known(items, connected, apn) == (items[i].allTypes % 2 == 1, items[i].apn)
  {
    if i < |items| - 1 {
      KnownIsLatest(items[..|items| - 1], i, connected, apn);
    } else {
      assert items[i].allTypes & 1 == items[i].allTypes % 2;
    }
  }

  lemma {:induction false} KnownElseKept(items: seq<DataItem>, connected: bool, apn: string)
    requires forall j :: 0 <= j < |items| ==> items[j].OtherItem?
    ensures Known(items, connected, apn) == (connected, apn)
  {
    if items != [] { KnownElseKept(items[..|items| - 1], connected, apn); }
  }

  class NativeAgpsHandler {
    var connected: bool
    var apn: string
    var posted: seq<Reply>  // the messages sent to the adapter's queue

    constructor ()
      ensures !connected && apn == "" && posted == []
    {
      connected, apn, posted := false, "", [];
    }

    method Notify(items: seq<DataItem>)
      modifies this`connected, this`apn
      ensures (connected, apn) == Known(items, old(connected), old(apn))
    {
      var i := 0;
      while i < |items|
        invariant i <= |items|
        invariant (connected, apn) == Known(items[..i], old(connected), old(apn))
      {
        assert items[..i + 1][..i] == items[..i];
        match items[i] {
          case NetworkInfo(allTypes, a) =>
            connected := allTypes & 1 == 1;
            apn := a;
          case OtherItem =>
        }
        i := i + 1;
      }
      assert items[..i] == items;
    }

    /** dataConnOpenCommand; `closed` when it calls reportAtlClosed instead of sending a message. */
    method DataConnOpen() returns (closed: bool)
      modifies this`posted
      ensures closed == !ApnOk(apn)
      ensures posted == old(posted) + if ApnOk(apn) then [OpenMsg(apn)] else []
    {
      if |apn| > MAX_APN_LEN || '\0' in apn {
        return true;
      }
      posted := posted + [OpenMsg(apn)];
      return false;
    }

    method ProcessATLRequestRelease(kind: AgpsType, out: Output) returns (closed: bool)
      modifies this`posted
      ensures closed == Closes(kind, connected, apn, out)
      ensures posted == old(posted) + Answer(kind, connected, apn, out)
    {
      closed := false;
      if kind == WwanAny {
        match out
        case RequestConn =>
          if connected {
            closed := DataConnOpen();
          } else {
            posted := posted + [FailedMsg];
          }
        case ReleaseConn =>
          posted := posted + [ClosedMsg];
        case _ =>
      }
    }
  }

  function Told(told: set<int>, before: seq<Sub>, after: seq<Sub>, outs: seq<Output>): set<int> {
    set h | h in Handles(after) && ((h in told && h in Handles(before)) || OpenStatus(h, true) in outs)
  }

  /** A step whose requests are each answered by a nested RELEASED event, which finds the machine as
    * it is at the callback: a subscribe moves to PENDING after its request, an end of a release
    * before it. */
  function NestedStep(m: Machine, e: Event): (Machine, seq<Output>) {
    if e.Subscribe? && m.state == Released then
      var (inner, outs) := OnReleased(Machine(Released, Add(m.subs, e.sub)));
      (inner.(state := Pending), [RequestConn] + outs)
    else if (e.ReleasedEvent? || e.DeniedEvent?) && m.state == Releasing then
      var left := Rest(m.subs, Inactives);
      var told := Notes(NoticeClosed, m.subs, Inactives);
      if AnyActive(left) then
        var (inner, outs) := OnReleased(Machine(Pending, left));
        (inner, told + [RequestConn] + outs)
      else (Machine(Released, left), told)
    else Step(m, e)
  }

  /** The nested event changes nothing: the connection that was refused stays awaited. */
  lemma NestedCloseIsLost(m: Machine, e: Event)
    ensures NestedStep(m, e) == Step(m, e)
  {
    var told := Notes(NoticeClosed, m.subs, Inactives);
    var none: seq<Output> := [];
    assert [RequestConn] + none == [RequestConn] && told + [RequestConn] + none == told + [RequestConn];
  }

  function Feed(sys: System, e: Event): System {
    var nested := Closes(sys.kind, sys.connected, sys.apn, RequestConn);
    var (m', outs) := if nested then NestedStep(sys.m, e) else Step(sys.m, e);
    sys.(m := m',
         queue := sys.queue + Answers(sys.kind, sys.connected, sys.apn, outs),
         told := Told(sys.told, sys.m.subs, m'.subs, outs))
  }

  predicate Enabled(sys: System, move: Move) {
    match move
    case Join(s, _) => !s.inactive
    case Quit(h) => h in Handles(sys.m.subs)
    case Deliver(_) => sys.queue != []
    case TypeKnown => 0 < sys.asked
    case _ => true
  }

  function Next(sys: System, move: Move): System
    requires Enabled(sys, move)
  {
    match move
    case Join(s, wanted) => Feed(sys.(kind := wanted), Subscribe(s))
    case Quit(h) => Feed(sys, Unsubscribe(h))
    case Restart => Feed(sys, DropAll)
    case Network(c, a) => sys.(connected := c, apn := a)
    case Stray(r) => sys.(queue := sys.queue + [r])
    case Deliver(ask) =>
      var rest := sys.(queue := sys.queue[1..]);
      (match sys.queue[0]
       case OpenMsg(a) => if ask && a != "" then rest.(asked := sys.asked + 1) else Feed(rest, GrantedEvent)
       case PdnMsg => Feed(rest, GrantedEvent)
       case FailedMsg => Feed(rest, DeniedEvent)
       case ClosedMsg => Feed(rest, ReleasedEvent))
    case TypeKnown => sys.(asked := sys.asked - 1, queue := sys.queue + [PdnMsg])
  }

  // ---------- Never stuck ----------

  /** The replies that take the machine out of a waiting state. */
  predicate Ends(state: State, r: Reply) {
    match state
    case Pending => !r.ClosedMsg?
    case Releasing => r.ClosedMsg? || r.FailedMsg?
    case _ => false
  }

  predicate Coming(queue: seq<Reply>, state: State) {
    exists r :: r in queue && Ends(state, r)
  }

  /** Whenever the machine waits, a reply that ends the wait is on its way, in whatever order. */
  predicate Answered(sys: System) {
    && (sys.m.state == Pending ==> 0 < sys.asked || Coming(sys.queue, Pending))
    && (sys.m.state == Releasing ==> Coming(sys.queue, Releasing))
  }

  /** A request sent now would be answered. */
  predicate Answerable(sys: System) {
    sys.kind == WwanAny && (sys.connected ==> ApnOk(sys.apn))
  }

  ghost predicate AllTold(sys: System) {
    sys.m.state == Acquired ==> forall s :: s in sys.m.subs && !s.inactive ==> s.handle in sys.told
  }

  ghost predicate Live(sys: System, restarted: bool) {
    Consistent(sys.m, restarted) && Answered(sys) && Answerable(sys) && AllTold(sys)
  }

  /** The moves of clients and network under which the loop is promised to work. */
  predicate Proper(move: Move) {
    match move
    case Join(_, wanted) => wanted == WwanAny
    case Network(c, a) => c ==> ApnOk(a)
    case _ => true
  }

  lemma {:induction false} AnswersAppend(kind: AgpsType, c: bool, a: string, outs: seq<Output>, out: Output)
    ensures Answers(kind, c, a, outs + [out]) == Answers(kind, c, a, outs) + Answer(kind, c, a, out)
  {
    if outs != [] {
      AnswersAppend(kind, c, a, outs[1..], out);
      assert (outs + [out])[1..] == outs[1..] + [out];
    }
  }

  lemma {:induction false} NotesUnanswered(
    kind: AgpsType, c: bool, a: string, notice: Notice, subs: seq<Sub>, who: Audience)
    ensures Answers(kind, c, a, Notes(notice, subs, who)) == []
  {
    if subs != [] { NotesUnanswered(kind, c, a, notice, subs[1..], who); }
  }

  lemma UnsubscribeAnswers(kind: AgpsType, c: bool, a: string, m: Machine, h: int)
    ensures var (m', outs) := OnUnsubscribe(m, h);
      && m'.state in {m.state, Released, Releasing}
      && (m'.state == Releasing && m.state != Releasing ==>
            Answers(kind, c, a, outs) == Answer(kind, c, a, ReleaseConn))
  {
    var outs := Leave(m.subs, h).1;
    AnswersAppend(kind, c, a, outs, ReleaseConn);
    assert Answers(kind, c, a, [CloseStatus(h)]) == [] + Answers(kind, c, a, []);
  }

  lemma AfterCloseAnswers(kind: AgpsType, c: bool, a: string, m: Machine)
    ensures var (m', outs) := AfterClose(m);
            && m'.state in {Pending, Released}
            && Answers(kind, c, a, outs) == if m'.state == Pending then Answer(kind, c, a, RequestConn) else []
  {
    NotesUnanswered(kind, c, a, NoticeClosed, m.subs, Inactives);
    AnswersAppend(kind, c, a, Notes(NoticeClosed, m.subs, Inactives), RequestConn);
  }

  /** A machine step that starts a wait makes exactly one callback to the framework. */
  lemma OneCallback(kind: AgpsType, c: bool, a: string, m: Machine, e: Event)
    ensures var (m', outs) := Step(m, e);
      && (m'.state == Pending && m.state != Pending ==>
            Answers(kind, c, a, outs) == Answer(kind, c, a, RequestConn))
      && (m'.state == Releasing && m.state != Releasing ==>
            Answers(kind, c, a, outs) == Answer(kind, c, a, ReleaseConn))
  {
    match e
    case Subscribe(s) => AnswersAppend(kind, c, a, [], RequestConn);
    case Unsubscribe(h) => UnsubscribeAnswers(kind, c, a, m, h);
    case ReleasedEvent | DeniedEvent => AfterCloseAnswers(kind, c, a, m);
    case _ =>
  }

  /** In any system a wait that starts is answered if and only if a reply that ends it was on the way
    * already, or the request is of the type the handler serves and, for an opening on a connected
    * network, the access point name is valid. */
  lemma WaitAnsweredIff(sys: System, e: Event)
    ensures var after := Feed(sys, e);
      && (after.m.state == Pending && sys.m.state != Pending ==>
            (Answered(after) <==> Answerable(sys) || 0 < sys.asked || Coming(sys.queue, Pending)))
      && (after.m.state == Releasing && sys.m.state != Releasing ==>
            (Answered(after) <==> sys.kind == WwanAny || Coming(sys.queue, Releasing)))
  {
    NestedCloseIsLost(sys.m, e);
    OneCallback(sys.kind, sys.connected, sys.apn, sys.m, e);
    var after := Feed(sys, e);
    assert forall r :: r in sys.queue ==> r in after.queue;
    var request := Answer(sys.kind, sys.connected, sys.apn, RequestConn);
    var release := Answer(sys.kind, sys.connected, sys.apn, ReleaseConn);
    if request != [] { assert request[0] in sys.queue + request; }
    if release != [] { assert release[0] in sys.queue + release; }
  }

  /** A wait goes on only when the event is not one that ends it. */
  lemma FeedKeeps(sys: System, e: Event)
    requires Answerable(sys)
    requires Answered(sys)
      || (e.GrantedEvent? && sys.m.state == Pending)
      || (e.DeniedEvent? && (sys.m.state == Pending || sys.m.state == Releasing))
      || (e.ReleasedEvent? && sys.m.state == Releasing)
    ensures Answered(Feed(sys, e)) && Answerable(Feed(sys, e))
  {
    WaitAnsweredIff(sys, e);
    NestedCloseIsLost(sys.m, e);
    assert forall r :: r in sys.queue ==> r in Feed(sys, e).queue;
  }

  lemma {:induction false} NotesTell(subs: seq<Sub>, s: Sub)
    requires s in subs && !s.inactive
    ensures OpenStatus(s.handle, true) in Notes(NoticeGranted, subs, Actives)
  {
    if s != subs[0] { NotesTell(subs[1..], s); }
  }

  lemma FeedTells(sys: System, e: Event)
    requires AllTold(sys) && Consistent(sys.m, true) && Sendable(sys.m, e)
    ensures AllTold(Feed(sys, e))
  {
    var (m', outs) := Step(sys.m, e);
    NestedCloseIsLost(sys.m, e);
    if m'.state == Acquired {
      forall s | s in m'.subs && !s.inactive ensures s.handle in Feed(sys, e).told {
        assert s.handle in Handles(m'.subs);
        match e
        case Subscribe(added) => AddKeeps(sys.m.subs, added);
        case Unsubscribe(h) => LeftWasThere(sys.m.subs, h, s);
        case GrantedEvent => if sys.m.state == Pending { NotesTell(sys.m.subs, s); }
        case _ =>
      }
    }
  }

  lemma LeftWasThere(subs: seq<Sub>, h: int, s: Sub)
    requires Distinct(subs) && s in Leave(subs, h).0 && !s.inactive
    ensures s in subs
  {
    if WaitsAt(subs, h) {
      DeactivateAt(subs, h);
    } else {
      DistinctDelete(subs, h);
    }
  }

  lemma EventKeeps(sys: System, e: Event, restarted: bool)
    requires Consistent(sys.m, restarted) && Answerable(sys) && AllTold(sys) && Sendable(sys.m, e)
    requires Answered(sys)
      || (e.GrantedEvent? && sys.m.state == Pending)
      || (e.DeniedEvent? && (sys.m.state == Pending || sys.m.state == Releasing))
      || (e.ReleasedEvent? && sys.m.state == Releasing)
    ensures Live(Feed(sys, e), restarted || e.DropAll?)
  {
    NestedCloseIsLost(sys.m, e);
    FeedKeeps(sys, e);
    FeedTells(sys, e);
    StepKeeps(sys.m, e, restarted);
  }

  lemma NextKeepsLive(sys: System, move: Move, restarted: bool)
    requires Live(sys, restarted) && Enabled(sys, move) && Proper(move)
    ensures Live(Next(sys, move), restarted || move.Restart?)
  {
    match move
    case Join(s, wanted) => EventKeeps(sys.(kind := wanted), Subscribe(s), restarted);
    case Quit(h) => EventKeeps(sys, Unsubscribe(h), restarted);
    case Restart => EventKeeps(sys, DropAll, restarted);
    case Network(c, a) =>
    case Stray(r) => assert forall x :: x in sys.queue ==> x in sys.queue + [r];
    case Deliver(ask) =>
      var head, rest := sys.queue[0], sys.(queue := sys.queue[1..]);
      assert forall x :: x in sys.queue ==> x == head || x in rest.queue;
      match head {
        case OpenMsg(a) => if !(ask && a != "") { EventKeeps(rest, GrantedEvent, restarted); }
        case PdnMsg => EventKeeps(rest, GrantedEvent, restarted);
        case FailedMsg => EventKeeps(rest, DeniedEvent, restarted);
        case ClosedMsg => EventKeeps(rest, ReleasedEvent, restarted);
      }
    case TypeKnown =>
      var queue := sys.queue + [PdnMsg];
      assert queue[|queue| - 1] in queue;
      assert forall x :: x in sys.queue ==> x in queue;
  }

  ghost predicate EnabledRun(sys: System, moves: seq<Move>)
    decreases |moves|
  {
    moves == [] || (Enabled(sys, moves[0]) && EnabledRun(Next(sys, moves[0]), moves[1..]))
  }

  ghost function Run(sys: System, moves: seq<Move>): System
    requires EnabledRun(sys, moves)
    decreases |moves|
  {
    if moves == [] then sys else Run(Next(sys, moves[0]), moves[1..])
  }

  predicate AnyRestart(moves: seq<Move>) { exists m :: m in moves && m.Restart? }

  const START := System(INIT, WwanAny, [], 0, false, "", {})

  lemma {:induction false} RunKeepsLive(sys: System, moves: seq<Move>, restarted: bool)
    requires Live(sys, restarted) && EnabledRun(sys, moves)
    requires forall move :: move in moves ==> Proper(move)
    ensures Live(Run(sys, moves), restarted || AnyRestart(moves))
    decreases |moves|
  {
    if moves != [] {
      NextKeepsLive(sys, moves[0], restarted);
      RunKeepsLive(Next(sys, moves[0]), moves[1..], restarted || moves[0].Restart?);
    }
  }

  predicate Drained(sys: System) { sys.queue == [] && sys.asked == 0 }

  /** Any run, with stray replies, re-subscribes and modem restarts: once all replies are handled
    * the machine rests, with nobody waiting. */
  lemma NeverStuck(moves: seq<Move>)
    requires EnabledRun(START, moves)
    requires forall move :: move in moves ==> Proper(move)
    ensures var sys := Run(START, moves);
      Drained(sys) ==>
        || (sys.m.state == Released && sys.m.subs == [])
        || (&& sys.m.state == Acquired
            && (forall s :: s in sys.m.subs && !s.inactive ==> s.handle in sys.told)
            && (AnyRestart(moves) || AnyActive(sys.m.subs)))
  {
    RunKeepsLive(START, moves, false);
  }

  // ---------- Handling the replies comes to an end ----------

  function Weight(queue: seq<Reply>): nat {
    if queue == [] then 0 else (if queue[0].OpenMsg? then 3 else 1) + Weight(queue[1..])
  }

  /** Steps left if only replies are handled. */
  function Work(sys: System): nat {
    Weight(sys.queue) + 2 * sys.asked + (if sys.m.state == Releasing then 4 else 0)
  }

  lemma {:induction false} WeightAppend(a: seq<Reply>, b: seq<Reply>)
    ensures Weight(a + b) == Weight(a) + Weight(b)
  {
    if a == [] {
      assert a + b == b;
    } else {
      WeightAppend(a[1..], b);
      assert (a + b)[1..] == a[1..] + b;
    }
  }

  /** A reply event asks for a new connection only when it ends a release. */
  lemma ReplyAnswers(kind: AgpsType, c: bool, a: string, m: Machine, e: Event)
    requires e.GrantedEvent? || e.DeniedEvent? || e.ReleasedEvent?
    ensures var (m', outs) := Step(m, e);
      && (m.state != Releasing ==> Answers(kind, c, a, outs) == [] && m'.state != Releasing)
      && (m.state == Releasing ==>
            || (m' == m && outs == [])
            || (m'.state != Releasing && Weight(Answers(kind, c, a, outs)) <= 3))
  {
    if m.state == Releasing {
      AfterCloseAnswers(kind, c, a, m);
    } else {
      NotesUnanswered(kind, c, a, NoticeGranted, m.subs, Actives);
      NotesUnanswered(kind, c, a, NoticeDenied, m.subs, Everyone);
      NotesUnanswered(kind, c, a, NoticeClosed, m.subs, Everyone);
    }
  }

  lemma ReplyWork(sys: System, e: Event)
    requires e.GrantedEvent? || e.DeniedEvent? || e.ReleasedEvent?
    ensures Work(Feed(sys, e)) <= Work(sys)
  {
    NestedCloseIsLost(sys.m, e);
    ReplyAnswers(sys.kind, sys.connected, sys.apn, sys.m, e);
    WeightAppend(sys.queue, Answers(sys.kind, sys.connected, sys.apn, Step(sys.m, e).1));
  }

  predicate HandlesReply(move: Move) { move.Deliver? || move.TypeKnown? }

  lemma DeliverWork(sys: System, move: Move)
    requires Enabled(sys, move) && HandlesReply(move)
    ensures Work(Next(sys, move)) < Work(sys)
  {
    if move.TypeKnown? {
      WeightAppend(sys.queue, [PdnMsg]);
    } else {
      var rest := sys.(queue := sys.queue[1..]);
      ReplyWork(rest, GrantedEvent);
      ReplyWork(rest, DeniedEvent);
      ReplyWork(rest, ReleasedEvent);
    }
  }

  /** Handling replies, in any order, takes at most Work steps. */
  lemma {:induction false} DrainingEnds(sys: System, moves: seq<Move>)
    requires EnabledRun(sys, moves) && forall move :: move in moves ==> HandlesReply(move)
    ensures |moves| + Work(Run(sys, moves)) <= Work(sys)
    decreases |moves|
  {
    if moves != [] {
      DeliverWork(sys, moves[0]);
      DrainingEnds(Next(sys, moves[0]), moves[1..]);
    }
  }

  // ---------- Exactly when a request is answered ----------

  /** The message, if any, for each callback: only the type WWAN_ANY is served, and a name is valid with
    * up to 100 characters, none of them zero. The connection is reported closed inside the callback
    * exactly when a request of the served type gets no message. */
  lemma AnswerIs(kind: AgpsType, connected: bool, apn: string, out: Output)
    ensures var valid := |apn| <= 100 && forall i :: 0 <= i < |apn| ==> apn[i] != '\0';
      && (kind != WwanAny ==> Answer(kind, connected, apn, out) == [])
      && (kind == WwanAny ==>
            && (out == RequestConn && !connected ==> Answer(kind, connected, apn, out) == [FailedMsg])
            && (out == RequestConn && connected ==>
                  Answer(kind, connected, apn, out) == if valid then [OpenMsg(apn)] else [])
            && (out == ReleaseConn ==> Answer(kind, connected, apn, out) == [ClosedMsg]))
      && (Closes(kind, connected, apn, out) <==>
            kind == WwanAny && out == RequestConn && Answer(kind, connected, apn, out) == [])
  {
    assert '\0' in apn <==> exists i :: 0 <= i < |apn| && apn[i] == '\0';
  }

  /** A success message is put off for a network type question exactly when there is a library to ask and
    * a name to ask about; else it opens the connection at once, as the late answer does. */
  lemma OpenAsksIff(sys: System, ask: bool)
    requires sys.queue != [] && sys.queue[0].OpenMsg? && sys.m.state == Pending
    ensures var after := Next(sys, Deliver(ask));
            var asks := ask && 0 < |sys.queue[0].apn|;
      && after.asked == sys.asked + (if asks then 1 else 0)
      && after.m == (if asks then sys.m else Machine(Acquired, sys.m.subs))
      && after.queue == sys.queue[1..]
  {
    NestedCloseIsLost(sys.m, GrantedEvent);
    NotesUnanswered(sys.kind, sys.connected, sys.apn, NoticeGranted, sys.m.subs, Actives);
    assert sys.queue[1..] + [] == sys.queue[1..];
  }

  /** With no other reply on the way, a first subscription is answered if and only if it is of the
    * type the handler serves and the network, when connected, has a valid access point name. */
  lemma JoinAnsweredIff(sys: System, s: Sub, wanted: AgpsType)
    requires sys.m == INIT && Drained(sys) && !s.inactive
    ensures var after := Next(sys, Join(s, wanted));
      && after.m.state == Pending
      && (Answered(after) <==> wanted == WwanAny && (sys.connected ==> |sys.apn| <= 100 && '\0' !in sys.apn))
      && (!Answered(after) ==> Drained(after))
      && (Answered(after) ==> after.queue == [if sys.connected then OpenMsg(sys.apn) else FailedMsg])
  {
    var after := Next(sys, Join(s, wanted));
    var reply := Answer(wanted, sys.connected, sys.apn, RequestConn);
    NestedCloseIsLost(sys.m, Subscribe(s));
    assert Step(sys.m, Subscribe(s)).1 == [RequestConn];
    assert Answers(wanted, sys.connected, sys.apn, [RequestConn]) == reply + [];
    assert after.queue == reply;
    if reply != [] { assert reply[0] in after.queue; }
  }

  /** A connected network whose name has 101 characters leaves the machine pending for good. */
  lemma LongNameSticks()
    ensures var sys := START.(connected := true, apn := seq(101, _ => 'a'));
            var after := Next(sys, Join(Sub(7, true, false), WwanAny));
            after.m.state == Pending && Drained(after)
  {
    JoinAnsweredIff(START.(connected := true, apn := seq(101, _ => 'a')), Sub(7, true, false), WwanAny);
  }
}
