/** What every run of the AGPS manager keeps. */
module AgpsRuns {
  import opened Wrappers
  import opened AgpsMachine

  /** What a machine may be sent: new subscribers are active, only listed ones leave. */
  predicate Sendable(m: Machine, e: Event) {
    match e
    case Subscribe(s) => !s.inactive
    case Unsubscribe(h) => h in Handles(m.subs)
    case _ => true
  }

  // ---------- State against subscriber list ----------

  ghost predicate Consistent(m: Machine, restarted: bool) {
    && Distinct(m.subs)
    && (forall s :: s in m.subs && s.inactive ==> s.waits)
    && (m.state == Released ==> m.subs == [])
    && (m.state == Pending || m.state == Acquired ==> m.subs == [] || AnyActive(m.subs))
    && (!restarted ==>
          && (m.state == Pending || m.state == Acquired ==> m.subs != [])
          && (m.state == Releasing ==> AnyInactive(m.subs)))
  }

  lemma AddKeeps(subs: seq<Sub>, s: Sub)
    requires Distinct(subs)
    ensures Distinct(Add(subs, s)) && Add(subs, s) != []
    ensures Handles(Add(subs, s)) == Handles(subs) + {s.handle}
    ensures forall x :: x in subs ==> x in Add(subs, s)
    ensures forall x :: x in Add(subs, s) ==> x in subs || x == s
    ensures subs == [] ==> s in Add(subs, s)
  {
    if s.handle !in Handles(subs) {
      forall i | 0 <= i < |subs| ensures subs[i].handle != s.handle {
        assert subs[i] in subs;
      }
      assert Add(subs, s)[|subs|] == s;
    }
  }

  lemma LeaveKeeps(subs: seq<Sub>, h: int)
    requires Distinct(subs) && h in Handles(subs)
    requires forall s :: s in subs && s.inactive ==> s.waits
    ensures var (left, outs) := Leave(subs, h);
      && Distinct(left)
      && (forall s :: s in left && s.inactive ==> s.waits)
      && (AnyInactive(subs) ==> AnyInactive(left))
      && outs == (if WaitsAt(subs, h) then [] else [CloseStatus(h)])
      && Handles(left) == (if WaitsAt(subs, h) then Handles(subs) else Handles(subs) - {h})
  {
    if WaitsAt(subs, h) {
      DeactivateKeeps(subs, h);
    } else {
      DistinctDelete(subs, h);
    }
  }

  lemma DeactivateKeeps(subs: seq<Sub>, h: int)
    requires Distinct(subs) && WaitsAt(subs, h)
    requires forall s :: s in subs && s.inactive ==> s.waits
    ensures var left := Deactivate(subs, h);
      && Distinct(left)
      && (forall s :: s in left && s.inactive ==> s.waits)
      && AnyInactive(left)
      && Handles(left) == Handles(subs)
  {
    var left := Deactivate(subs, h);
    DeactivateAt(subs, h);
    var w :| w in subs && w.handle == h && w.waits;
    var k :| 0 <= k < |subs| && subs[k] == w;
    assert left[k].inactive && left[k] in left;
    forall x | x in Handles(subs) ensures x in Handles(left) {
      var i :| 0 <= i < |subs| && subs[i].handle == x;
      assert left[i] in left;
    }
    forall s | s in left && s.inactive ensures s.waits {
      var i :| 0 <= i < |left| && left[i] == s;
      assert subs[i].handle == h ==> i == k;
    }
  }

  lemma ActiveOrInactive(subs: seq<Sub>)
    ensures subs != [] ==> AnyActive(subs) || AnyInactive(subs)
  {
    if subs != [] { assert subs[0] in subs; }
  }

  lemma AfterCloseKeeps(m: Machine, restarted: bool)
    requires Consistent(m, restarted) && m.state == Releasing
    ensures Consistent(AfterClose(m).0, restarted)
  {
    RestKeeps(m.subs, Inactives);
    ActiveOrInactive(Rest(m.subs, Inactives));
  }

  lemma UnsubscribeKeeps(m: Machine, h: int, restarted: bool)
    requires Consistent(m, restarted) && h in Handles(m.subs)
    ensures Consistent(OnUnsubscribe(m, h).0, restarted)
  {
    LeaveKeeps(m.subs, h);
    ActiveOrInactive(Leave(m.subs, h).0);
  }

  lemma StepKeeps(m: Machine, e: Event, restarted: bool)
    requires Consistent(m, restarted) && Sendable(m, e)
    ensures Consistent(Step(m, e).0, restarted || e.DropAll?)
  {
    match e
    case Subscribe(s) => AddKeeps(m.subs, s);
    case Unsubscribe(h) => UnsubscribeKeeps(m, h, restarted);
    case GrantedEvent =>
    case ReleasedEvent | DeniedEvent =>
      RestEveryone(m.subs);
      if m.state == Releasing { AfterCloseKeeps(m, restarted); }
    case DropAll =>
  }

  predicate ActiveAt(subs: seq<Sub>, h: int) {
    exists s :: s in subs && s.handle == h && !s.inactive
  }

  /** Who is listed after an event: a waiting subscriber stays until the close, then only the active
    * ones do; a denial or a close of an open connection removes everybody. */
  predicate StaysListed(m: Machine, e: Event, h: int) {
    match e
    case Subscribe(s) => h == s.handle || h in Handles(m.subs)
    case Unsubscribe(k) => h in Handles(m.subs) && (h == k && m.state != Released ==> WaitsAt(m.subs, h))
    case GrantedEvent => h in Handles(m.subs)
    case DropAll => false
    case _ =>
      if m.state == Releasing then ActiveAt(m.subs, h)
      else h in Handles(m.subs) && m.state != (if e.ReleasedEvent? then Acquired else Pending)
  }

  lemma StepLists(m: Machine, e: Event, h: int)
    requires Distinct(m.subs) && Sendable(m, e)
    requires forall s :: s in m.subs && s.inactive ==> s.waits
    ensures h in Handles(Step(m, e).0.subs) <==> StaysListed(m, e, h)
  {
    match e
    case Subscribe(s) => AddKeeps(m.subs, s);
    case Unsubscribe(k) => LeaveKeeps(m.subs, k);
    case ReleasedEvent | DeniedEvent =>
      RestKeeps(m.subs, Inactives);
      RestEveryone(m.subs);
    case _ =>
  }

  /** A subscribe leaves an active subscriber with the handle if and only if the handle was not listed
    * or was active: one that unsubscribed and still waits for the close stays inactive, although a
    * subscribe to an open connection is told success. */
  lemma SubscribeActiveIff(m: Machine, s: Sub)
    requires Distinct(m.subs) && !s.inactive
    ensures ActiveAt(Step(m, Subscribe(s)).0.subs, s.handle) <==>
            s.handle !in Handles(m.subs) || ActiveAt(m.subs, s.handle)
  {
    if s.handle !in Handles(m.subs) {
      assert s in Add(m.subs, s);
    }
  }

  lemma AfterCloseReleasesNone(m: Machine)
    ensures var (m', outs) := AfterClose(m);
      && ReleaseConn !in outs && m'.state != Releasing
      && (m'.subs == [] ==> m'.state == Released)
  {
    NotesCount(NoticeClosed, m.subs, Inactives);
  }

  lemma EndReleasesNone(m: Machine, e: Event)
    requires e.ReleasedEvent? || e.DeniedEvent?
    ensures var (m', outs) := Step(m, e);
      && ReleaseConn !in outs && (m'.state == Releasing ==> m' == m)
      && (m'.subs == [] && m.subs != [] ==> m'.state == Released)
  {
    if m.state == Releasing {
      AfterCloseReleasesNone(m);
    } else {
      NotesCount(if e.ReleasedEvent? then NoticeClosed else NoticeDenied, m.subs, Everyone);
    }
  }

  /** The connection is given back exactly when an unsubscribe leaves no active subscriber; the
    * machine then waits for the close if and only if somebody waits for it. */
  lemma ReleaseIff(m: Machine, e: Event)
    requires Distinct(m.subs) && (e.DropAll? || m.subs != []) && Sendable(m, e)
    requires forall s :: s in m.subs && s.inactive ==> s.waits
    ensures var (m', outs) := Step(m, e);
      && (ReleaseConn in outs <==>
            e.Unsubscribe? && (m.state == Pending || m.state == Acquired) && !AnyActive(m'.subs))
      && (m'.state == Releasing && m.state != Releasing ==> ReleaseConn in outs && m'.subs != [])
      && (m'.subs == [] && !e.DropAll? && !e.GrantedEvent? && m.state != Released ==> m'.state == Released)
  {
    match e
    case GrantedEvent => NotesCount(NoticeGranted, m.subs, Actives);
    case ReleasedEvent | DeniedEvent => EndReleasesNone(m, e);
    case _ =>
  }

  lemma LeaveTouchesOne(subs: seq<Sub>, h: int, k: int)
    requires Distinct(subs)
    ensures ActiveAt(Leave(subs, h).0, k) <==> k != h && ActiveAt(subs, k)
    ensures h in Handles(Leave(subs, h).0) <==> WaitsAt(subs, h)
  {
    var left := Leave(subs, h).0;
    if WaitsAt(subs, h) {
      DeactivateAt(subs, h);
      forall s | s in subs ensures s.handle != h ==> s in left
                           ensures s.handle == h ==> h in Handles(left) {
        var i :| 0 <= i < |subs| && subs[i] == s;
        assert left[i] in left;
      }
    } else {
      DistinctDelete(subs, h);
    }
  }

  lemma UnsubscribeOutputs(m: Machine, h: int)
    ensures var told := if m.state == Released || !WaitsAt(m.subs, h) then [CloseStatus(h)] else [];
            OnUnsubscribe(m, h).1 == told || OnUnsubscribe(m, h).1 == told + [ReleaseConn]
  {
  }

  /** Who unsubscribes, listed or not, is told the close once at once, unless it stays listed, inactive,
    * until the real one; of the others nobody is told a close or stops being active. */
  lemma UnsubscribeTold(m: Machine, h: int, k: int, restarted: bool)
    requires Consistent(m, restarted)
    ensures var (m', outs) := OnUnsubscribe(m, h);
      && multiset(outs)[CloseStatus(h)] == (if h in Handles(m'.subs) then 0 else 1)
      && (CloseStatus(k) in outs ==> k == h)
      && (ActiveAt(m'.subs, k) <==> k != h && ActiveAt(m.subs, k))
  {
    LeaveTouchesOne(m.subs, h, k);
    UnsubscribeOutputs(m, h);
    assert m.state != Released ==> OnUnsubscribe(m, h).0.subs == Leave(m.subs, h).0;
  }

  // ---------- Requests and releases to the framework ----------

  /** Requests sent; releases sent; denials taken while pending; forced closes while acquired. */
  datatype Ledger = Ledger(requests: nat, releases: nat, denied: nat, forced: nat)

  function Book(l: Ledger, m: Machine, e: Event): Ledger {
    var outs := multiset(Step(m, e).1);
    Ledger(l.requests + outs[RequestConn],
           l.releases + outs[ReleaseConn],
           l.denied + (if e.DeniedEvent? && m.state == Pending then 1 else 0),
           l.forced + (if e.ReleasedEvent? && m.state == Acquired then 1 else 0))
  }

  function Outstanding(m: Machine): nat {
    if m.state == Pending || m.state == Acquired then 1 else 0
  }

  ghost predicate Balanced(l: Ledger, m: Machine) {
    l.requests == l.releases + l.denied + l.forced + Outstanding(m)
  }

  lemma {:induction false} NotesCount(notice: Notice, subs: seq<Sub>, who: Audience)
    ensures multiset(Notes(notice, subs, who))[RequestConn] == 0
    ensures multiset(Notes(notice, subs, who))[ReleaseConn] == 0
  {
    if subs != [] { NotesCount(notice, subs[1..], who); }
  }

  lemma UnsubscribeCounts(m: Machine, h: int)
    ensures var (m', outs) := OnUnsubscribe(m, h);
            multiset(outs)[RequestConn] == 0 && multiset(outs)[ReleaseConn] == Outstanding(m) - Outstanding(m')
  {
  }

  lemma AfterCloseCounts(m: Machine)
    ensures var (m', outs) := AfterClose(m);
            multiset(outs)[ReleaseConn] == 0 && multiset(outs)[RequestConn] == Outstanding(m')
  {
    NotesCount(NoticeClosed, m.subs, Inactives);
  }

  /** Holds for every event in every state, also those the manager never sends. */
  lemma StepBalances(l: Ledger, m: Machine, e: Event)
    requires Balanced(l, m)
    ensures Balanced(Book(l, m, e), Step(m, e).0)
  {
    match e
    case Subscribe(s) =>
    case Unsubscribe(h) => UnsubscribeCounts(m, h);
    case GrantedEvent => NotesCount(NoticeGranted, m.subs, Actives);
    case ReleasedEvent =>
      if m.state == Releasing { AfterCloseCounts(m); } else { NotesCount(NoticeClosed, m.subs, Everyone); }
    case DeniedEvent =>
      if m.state == Releasing { AfterCloseCounts(m); } else { NotesCount(NoticeDenied, m.subs, Everyone); }
    case DropAll =>
  }

  function Run(m: Machine, es: seq<Event>): Machine
    decreases |es|
  {
    if es == [] then m else Run(Step(m, es[0]).0, es[1..])
  }

  function BookRun(l: Ledger, m: Machine, es: seq<Event>): Ledger
    decreases |es|
  {
    if es == [] then l else BookRun(Book(l, m, es[0]), Step(m, es[0]).0, es[1..])
  }

  lemma {:induction false} RunBalances(l: Ledger, m: Machine, es: seq<Event>)
    requires Balanced(l, m)
    ensures Balanced(BookRun(l, m, es), Run(m, es))
    decreases |es|
  {
    if es != [] {
      StepBalances(l, m, es[0]);
      RunBalances(Book(l, m, es[0]), Step(m, es[0]).0, es[1..]);
    }
  }

  /** At every moment at most one request is open, and releases never outnumber requests. */
  lemma RequestsAlternate(es: seq<Event>, n: nat)
    requires n <= |es|
    ensures var l := BookRun(Ledger(0, 0, 0, 0), INIT, es[..n]);
            0 <= l.requests - (l.releases + l.denied + l.forced) <= 1
  {
    RunBalances(Ledger(0, 0, 0, 0), INIT, es[..n]);
  }

  // ---------- Notifications ----------

  /** How often the handle is told that its connection is over: closed, or never opened. */
  function Terminal(outs: seq<Output>, h: int): nat {
    multiset(outs)[CloseStatus(h)] + multiset(outs)[OpenStatus(h, false)]
  }

  function Lost(before: seq<Sub>, after: seq<Sub>, h: int): nat {
    if h in Handles(before) && h !in Handles(after) then 1 else 0
  }

  lemma HandlesCons(s: Sub, tail: seq<Sub>)
    ensures Handles([s] + tail) == {s.handle} + Handles(tail)
  {
    assert forall x :: x in [s] + tail <==> x == s || x in tail;
  }

  lemma TerminalCons(out: Output, outs: seq<Output>, h: int)
    ensures Terminal([out] + outs, h) ==
            Terminal(outs, h) + if out == CloseStatus(h) || out == OpenStatus(h, false) then 1 else 0
  {
  }

  lemma {:induction false} NotesTerminal(notice: Notice, subs: seq<Sub>, who: Audience, h: int)
    requires Distinct(subs)
    ensures notice == NoticeGranted ==> Terminal(Notes(notice, subs, who), h) == 0
    ensures notice != NoticeGranted ==>
              Terminal(Notes(notice, subs, who), h) == Lost(subs, Rest(subs, who), h)
  {
    if subs != [] {
      var s, tail := subs[0], subs[1..];
      NotesTerminal(notice, tail, who, h);
      RestKeeps(tail, who);
      assert subs == [s] + tail && s.handle !in Handles(tail);
      HandlesCons(s, tail);
      HandlesCons(s, Rest(tail, who));
      TerminalCons(Note(notice, s.handle), Notes(notice, tail, who), h);
      assert Rest(subs, who) == if Meant(who, s) then Rest(tail, who) else [s] + Rest(tail, who);
      assert h == s.handle ==> Lost(tail, Rest(tail, who), h) == 0 && h !in Handles(Rest(tail, who));
    }
  }

  lemma UnsubscribeConserves(m: Machine, k: int, h: int)
    requires Distinct(m.subs) && m.state != Released && k in Handles(m.subs)
    requires forall s :: s in m.subs && s.inactive ==> s.waits
    ensures Terminal(OnUnsubscribe(m, k).1, h) == Lost(m.subs, OnUnsubscribe(m, k).0.subs, h)
  {
    LeaveKeeps(m.subs, k);
    var outs := Leave(m.subs, k).1;
    assert Terminal(outs + [ReleaseConn], h) == Terminal(outs, h);
  }

  lemma AfterCloseConserves(m: Machine, h: int)
    requires Distinct(m.subs)
    ensures Terminal(AfterClose(m).1, h) == Lost(m.subs, AfterClose(m).0.subs, h)
  {
    NotesTerminal(NoticeClosed, m.subs, Inactives, h);
    var outs := Notes(NoticeClosed, m.subs, Inactives);
    assert Terminal(outs + [RequestConn], h) == Terminal(outs, h);
  }

  /** Leaving the list, other than by a modem restart, is told exactly once. */
  lemma StepConserves(m: Machine, e: Event, h: int)
    requires Distinct(m.subs) && (m.state == Released ==> m.subs == [])
    requires forall s :: s in m.subs && s.inactive ==> s.waits
    requires Sendable(m, e) && !e.DropAll?
    ensures Terminal(Step(m, e).1, h) == Lost(m.subs, Step(m, e).0.subs, h)
  {
    match e
    case Subscribe(s) => AddKeeps(m.subs, s);
    case Unsubscribe(k) => UnsubscribeConserves(m, k, h);
    case GrantedEvent => NotesTerminal(NoticeGranted, m.subs, Actives, h);
    case ReleasedEvent =>
      if m.state == Releasing {
        AfterCloseConserves(m, h);
      } else {
        NotesTerminal(NoticeClosed, m.subs, Everyone, h);
      }
    case DeniedEvent =>
      if m.state == Releasing {
        AfterCloseConserves(m, h);
      } else {
        NotesTerminal(NoticeDenied, m.subs, Everyone, h);
      }
  }

  lemma {:induction false} NotesOpened(notice: Notice, subs: seq<Sub>, who: Audience, h: int)
    requires Distinct(subs)
    ensures multiset(Notes(notice, subs, who))[OpenStatus(h, true)] <= 1
    ensures OpenStatus(h, true) in Notes(notice, subs, who) <==>
            notice == NoticeGranted && exists s :: s in subs && s.handle == h && Meant(who, s)
  {
    if subs != [] {
      NotesOpened(notice, subs[1..], who, h);
      assert forall s :: s in subs <==> s == subs[0] || s in subs[1..];
      assert forall s :: s in subs[1..] ==> s.handle != subs[0].handle;
    }
  }

  lemma AfterCloseOpensNone(m: Machine, h: int)
    requires Distinct(m.subs)
    ensures multiset(AfterClose(m).1)[OpenStatus(h, true)] == 0
  {
    NotesOpened(NoticeClosed, m.subs, Inactives, h);
  }

  lemma EndOpensNone(m: Machine, e: Event, h: int)
    requires Distinct(m.subs) && (e.ReleasedEvent? || e.DeniedEvent?)
    ensures multiset(Step(m, e).1)[OpenStatus(h, true)] == 0
  {
    AfterCloseOpensNone(m, h);
    NotesOpened(NoticeClosed, m.subs, Everyone, h);
    NotesOpened(NoticeDenied, m.subs, Everyone, h);
  }

  /** Success is told once, and exactly to the active subscribers when the awaited connection opens
    * and to who subscribes to an open one. */
  lemma StepTellsOpen(m: Machine, e: Event, h: int)
    requires Distinct(m.subs)
    ensures multiset(Step(m, e).1)[OpenStatus(h, true)] ==
              if (e.GrantedEvent? && m.state == Pending && ActiveAt(m.subs, h))
                 || (e.Subscribe? && m.state == Acquired && e.sub.handle == h) then 1 else 0
  {
    match e
    case GrantedEvent => NotesOpened(NoticeGranted, m.subs, Actives, h);
    case ReleasedEvent | DeniedEvent => EndOpensNone(m, e, h);
    case _ =>
  }

  // ---------- Any commands to the manager ----------

  ghost predicate AllConsistent(mgr: Manager, restarted: bool) {
    && (mgr.agnss.Some? ==> Consistent(mgr.agnss.value, restarted))
    && (mgr.internet.Some? ==> Consistent(mgr.internet.value, restarted))
  }

  function SubsOf(o: Option<Machine>): seq<Sub> { if o.None? then [] else o.value.subs }

  predicate Missing(mgr: Manager, c: Command) {
    c.RequestAtl? && (if UsesAgnss(c.kind) then mgr.agnss else mgr.internet).None?
  }

  lemma RouteKeeps(mgr: Manager, toAgnss: bool, e: Event, restarted: bool)
    requires AllConsistent(mgr, restarted)
    requires var t := if toAgnss then mgr.agnss else mgr.internet; t.Some? ==> Sendable(t.value, e)
    ensures AllConsistent(Route(mgr, toAgnss, e).0, restarted || e.DropAll?)
  {
    var t := if toAgnss then mgr.agnss else mgr.internet;
    if t.Some? { StepKeeps(t.value, e, restarted); }
  }

  lemma ManageKeeps(mgr: Manager, c: Command, restarted: bool)
    requires AllConsistent(mgr, restarted)
    ensures AllConsistent(Manage(mgr, c).0, restarted || c.HandleModemSsr?)
  {
    match c
    case RequestAtl(h, kind) => RouteKeeps(mgr, UsesAgnss(kind), Subscribe(Sub(h, true, false)), restarted);
    case ReleaseAtl(h) =>
      if Holds(mgr.agnss, h) {
        RouteKeeps(mgr, true, Unsubscribe(h), restarted);
      } else if Holds(mgr.internet, h) {
        RouteKeeps(mgr, false, Unsubscribe(h), restarted);
      }
    case ReportOpenSuccess(kind) => RouteKeeps(mgr, UsesAgnss(kind), GrantedEvent, restarted);
    case ReportOpenFailed(kind) => RouteKeeps(mgr, UsesAgnss(kind), DeniedEvent, restarted);
    case ReportClosed(kind) => RouteKeeps(mgr, UsesAgnss(kind), ReleasedEvent, restarted);
    case HandleModemSsr =>
      RouteKeeps(mgr, true, DropAll, true);
      RouteKeeps(Route(mgr, true, DropAll).0, false, DropAll, true);
  }

  function ManageAll(mgr: Manager, cs: seq<Command>): Manager
    decreases |cs|
  {
    if cs == [] then mgr else ManageAll(Manage(mgr, cs[0]).0, cs[1..])
  }

  predicate AnySsr(cs: seq<Command>) { exists c :: c in cs && c.HandleModemSsr? }

  /** Any run of commands from consistent machines keeps state and list in step. */
  lemma {:induction false} ManageAllKeeps(mgr: Manager, cs: seq<Command>, restarted: bool)
    requires AllConsistent(mgr, restarted)
    ensures AllConsistent(ManageAll(mgr, cs), restarted || AnySsr(cs))
    decreases |cs|
  {
    if cs != [] {
      ManageKeeps(mgr, cs[0], restarted);
      ManageAllKeeps(Manage(mgr, cs[0]).0, cs[1..], restarted || cs[0].HandleModemSsr?);
    }
  }

  /** Every handle that leaves a list is told once; a handle in no list is told nothing terminal,
    * except by a request for which there is no machine. */
  lemma ManageConserves(mgr: Manager, c: Command, h: int, restarted: bool)
    requires AllConsistent(mgr, restarted) && !c.HandleModemSsr?
    ensures var (mgr', outs) := Manage(mgr, c);
            Terminal(outs, h) ==
              Lost(SubsOf(mgr.agnss), SubsOf(mgr'.agnss), h)
              + Lost(SubsOf(mgr.internet), SubsOf(mgr'.internet), h)
              + (if Missing(mgr, c) && h == c.handle then 1 else 0)
  {
    var (toAgnss, e) := match c
      case RequestAtl(k, kind) => (UsesAgnss(kind), Subscribe(Sub(k, true, false)))
      case ReleaseAtl(k) => (Holds(mgr.agnss, k), Unsubscribe(k))
      case ReportOpenSuccess(kind) => (UsesAgnss(kind), GrantedEvent)
      case ReportOpenFailed(kind) => (UsesAgnss(kind), DeniedEvent)
      case ReportClosed(kind) => (UsesAgnss(kind), ReleasedEvent);
    var t := if toAgnss then mgr.agnss else mgr.internet;
    if t.Some? && Sendable(t.value, e) {
      StepConserves(t.value, e, h);
    }
  }
}
