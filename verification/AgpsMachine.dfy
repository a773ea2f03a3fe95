/** One AGPS connection (gps/gnss/Agps.cpp) as a state machine on values. The classes in Agps.dfy
  * are proved equal to these functions. */
module AgpsMachine {
  import opened Wrappers

  datatype State = Released | Pending | Acquired | Releasing

  datatype Sub = Sub(handle: int, waits: bool, inactive: bool)

  /** The callbacks a step makes, in order. */
  datatype Output =
    | OpenStatus(handle: int, success: bool)
    | CloseStatus(handle: int)
    | RequestConn
    | ReleaseConn

  datatype Machine = Machine(state: State, subs: seq<Sub>)

  datatype Event =
    | Subscribe(sub: Sub)
    | Unsubscribe(handle: int)
    | GrantedEvent
    | ReleasedEvent
    | DeniedEvent
    | DropAll  // modem restart

  datatype Notice = NoticeGranted | NoticeDenied | NoticeClosed
  datatype Audience = Everyone | Inactives | Actives

  const INIT := Machine(Released, [])

  function Handles(subs: seq<Sub>): (r: set<int>) { set s | s in subs :: s.handle }

  predicate Distinct(subs: seq<Sub>) {
    forall i, j :: 0 <= i < j < |subs| ==> subs[i].handle != subs[j].handle
  }

  predicate AnyActive(subs: seq<Sub>) { exists s :: s in subs && !s.inactive }
  predicate AnyInactive(subs: seq<Sub>) { exists s :: s in subs && s.inactive }

  function Add(subs: seq<Sub>, s: Sub): seq<Sub> {
    if s.handle in Handles(subs) then subs else subs + [s]
  }

  function Delete(subs: seq<Sub>, handle: int): seq<Sub> {
    if subs == [] then []
    else if subs[0].handle == handle then Delete(subs[1..], handle)
    else [subs[0]] + Delete(subs[1..], handle)
  }

  function Deactivate(subs: seq<Sub>, handle: int): seq<Sub> {
    if subs == [] then []
    else
      var s := if subs[0].handle == handle then subs[0].(inactive := true) else subs[0];
      [s] + Deactivate(subs[1..], handle)
  }

  predicate Meant(who: Audience, s: Sub) {
    match who
    case Everyone => true
    case Inactives => s.inactive
    case Actives => !s.inactive
  }

  function Note(notice: Notice, handle: int): Output {
    match notice
    case NoticeGranted => OpenStatus(handle, true)
    case NoticeDenied => OpenStatus(handle, false)
    case NoticeClosed => CloseStatus(handle)
  }

  function Notes(notice: Notice, subs: seq<Sub>, who: Audience): seq<Output> {
    if subs == [] then []
    else if Meant(who, subs[0]) then [Note(notice, subs[0].handle)] + Notes(notice, subs[1..], who)
    else Notes(notice, subs[1..], who)
  }

  /** The subscribers left after those of the audience are deleted. */
  function Rest(subs: seq<Sub>, who: Audience): seq<Sub> {
    if subs == [] then []
    else if Meant(who, subs[0]) then Rest(subs[1..], who)
    else [subs[0]] + Rest(subs[1..], who)
  }

  predicate WaitsAt(subs: seq<Sub>, handle: int) {
    exists s :: s in subs && s.handle == handle && s.waits
  }

  function OnSubscribe(m: Machine, s: Sub): (Machine, seq<Output>) {
    var added := Add(m.subs, s);
    match m.state
    case Released => (Machine(Pending, added), [RequestConn])
    case Acquired => (Machine(Acquired, added), [OpenStatus(s.handle, true)])
    case _ => (Machine(m.state, added), [])
  }

  /** The subscriber with this handle goes inactive when it waits for the close, else it goes. */
  function Leave(subs: seq<Sub>, handle: int): (seq<Sub>, seq<Output>) {
    if WaitsAt(subs, handle) then (Deactivate(subs, handle), [])
    else (Delete(subs, handle), [CloseStatus(handle)])
  }

  function OnUnsubscribe(m: Machine, handle: int): (Machine, seq<Output>) {
    if m.state == Released then (m, [CloseStatus(handle)])
    else
      var (left, outs) := Leave(m.subs, handle);
      if m.state == Releasing then
        (Machine(if left == [] then Released else Releasing, left), outs)
      else if left == [] then (Machine(Released, left), outs + [ReleaseConn])
      else if !AnyActive(left) then (Machine(Releasing, left), outs + [ReleaseConn])
      else (Machine(m.state, left), outs)
  }

  function OnGranted(m: Machine): (Machine, seq<Output>) {
    if m.state == Pending then (Machine(Acquired, m.subs), Notes(NoticeGranted, m.subs, Actives))
    else (m, [])
  }

  /** RELEASED or DENIED while releasing: who still waits gets a new connection request. */
  function AfterClose(m: Machine): (Machine, seq<Output>) {
    var left := Rest(m.subs, Inactives);
    var outs := Notes(NoticeClosed, m.subs, Inactives);
    if AnyActive(left) then (Machine(Pending, left), outs + [RequestConn])
    else (Machine(Released, left), outs)
  }

  function OnReleased(m: Machine): (Machine, seq<Output>) {
    match m.state
    case Acquired => (Machine(Released, Rest(m.subs, Everyone)), Notes(NoticeClosed, m.subs, Everyone))
    case Releasing => AfterClose(m)
    case _ => (m, [])
  }

  function OnDenied(m: Machine): (Machine, seq<Output>) {
    match m.state
    case Pending => (Machine(Released, Rest(m.subs, Everyone)), Notes(NoticeDenied, m.subs, Everyone))
    case Releasing => AfterClose(m)
    case _ => (m, [])
  }

  function Step(m: Machine, e: Event): (Machine, seq<Output>) {
    match e
    case Subscribe(s) => OnSubscribe(m, s)
    case Unsubscribe(h) => OnUnsubscribe(m, h)
    case GrantedEvent => OnGranted(m)
    case ReleasedEvent => OnReleased(m)
    case DeniedEvent => OnDenied(m)
    case DropAll => (m.(subs := []), [])
  }

  // ---------- The manager: one machine for assisted GNSS, one for the internet ----------

  datatype AgpsType = InvalidType | AnyType | Supl | WwanAny | SuplEs

  datatype Manager = Manager(agnss: Option<Machine>, internet: Option<Machine>)

  datatype Command =
    | RequestAtl(handle: int, kind: AgpsType)
    | ReleaseAtl(handle: int)
    | ReportOpenSuccess(kind: AgpsType)
    | ReportOpenFailed(kind: AgpsType)
    | ReportClosed(kind: AgpsType)
    | HandleModemSsr

  predicate UsesAgnss(kind: AgpsType) {
    kind == InvalidType || kind == Supl || kind == SuplEs
  }

  predicate Holds(o: Option<Machine>, handle: int) {
    o.Some? && handle in Handles(o.value.subs)
  }

  /** An event for the machine of this kind; nothing happens when there is none. */
  function Route(mgr: Manager, toAgnss: bool, e: Event): (Manager, seq<Output>) {
    var target := if toAgnss then mgr.agnss else mgr.internet;
    if target.None? then (mgr, [])
    else
      var (m, outs) := Step(target.value, e);
      (if toAgnss then mgr.(agnss := Some(m)) else mgr.(internet := Some(m)), outs)
  }

  function Manage(mgr: Manager, c: Command): (Manager, seq<Output>) {
    match c
    case RequestAtl(h, kind) =>
      if (if UsesAgnss(kind) then mgr.agnss else mgr.internet).None? then (mgr, [OpenStatus(h, false)])
      else Route(mgr, UsesAgnss(kind), Subscribe(Sub(h, true, false)))
    case ReleaseAtl(h) =>
      if Holds(mgr.agnss, h) then Route(mgr, true, Unsubscribe(h))
      else if Holds(mgr.internet, h) then Route(mgr, false, Unsubscribe(h))
      else (mgr, [])
    case ReportOpenSuccess(kind) => Route(mgr, UsesAgnss(kind), GrantedEvent)
    case ReportOpenFailed(kind) => Route(mgr, UsesAgnss(kind), DeniedEvent)
    case ReportClosed(kind) => Route(mgr, UsesAgnss(kind), ReleasedEvent)
    case HandleModemSsr =>
      var (mgr1, outs1) := Route(mgr, true, DropAll);
      var (mgr2, outs2) := Route(mgr1, false, DropAll);
      (mgr2, outs1 + outs2)
  }

  // ---------- The loops, one subscriber further ----------

  lemma {:induction false} NotesAppend(notice: Notice, subs: seq<Sub>, s: Sub, who: Audience)
    ensures Notes(notice, subs + [s], who) ==
            if Meant(who, s) then Notes(notice, subs, who) + [Note(notice, s.handle)]
            else Notes(notice, subs, who)
  {
    if subs != [] {
      NotesAppend(notice, subs[1..], s, who);
      assert (subs + [s])[1..] == subs[1..] + [s];
    }
  }

  lemma {:induction false} RestAppend(subs: seq<Sub>, s: Sub, who: Audience)
    ensures Rest(subs + [s], who) ==
            if Meant(who, s) then Rest(subs, who) else Rest(subs, who) + [s]
  {
    if subs != [] {
      RestAppend(subs[1..], s, who);
      assert (subs + [s])[1..] == subs[1..] + [s];
    }
  }

  lemma {:induction false} DeleteAppend(subs: seq<Sub>, s: Sub, handle: int)
    ensures Delete(subs + [s], handle) ==
            if s.handle == handle then Delete(subs, handle) else Delete(subs, handle) + [s]
  {
    if subs != [] {
      DeleteAppend(subs[1..], s, handle);
      assert (subs + [s])[1..] == subs[1..] + [s];
    }
  }

  lemma {:induction false} DistinctDelete(subs: seq<Sub>, handle: int)
    requires Distinct(subs)
    ensures Distinct(Delete(subs, handle))
    ensures forall s :: s in Delete(subs, handle) <==> s in subs && s.handle != handle
  {
    if subs != [] {
      DistinctDelete(subs[1..], handle);
    }
  }

  lemma {:induction false} DeactivateAt(subs: seq<Sub>, handle: int)
    ensures |Deactivate(subs, handle)| == |subs|
    ensures forall i :: 0 <= i < |subs| ==>
              Deactivate(subs, handle)[i] ==
              if subs[i].handle == handle then subs[i].(inactive := true) else subs[i]
  {
    if subs != [] { DeactivateAt(subs[1..], handle); }
  }

  lemma {:induction false} RestEveryone(subs: seq<Sub>)
    ensures Rest(subs, Everyone) == []
  {
    if subs != [] { RestEveryone(subs[1..]); }
  }

  lemma {:induction false} RestKeeps(subs: seq<Sub>, who: Audience)
    ensures forall s :: s in Rest(subs, who) <==> s in subs && !Meant(who, s)
    ensures Distinct(subs) ==> Distinct(Rest(subs, who))
  {
    if subs != [] {
      RestKeeps(subs[1..], who);
      assert Distinct(subs) ==> Distinct(subs[1..]);
      assert Distinct(subs) ==> forall s :: s in subs[1..] ==> s.handle != subs[0].handle;
    }
  }
}
