/** The classes of gps/gnss/Agps.h and Agps.cpp, updating their fields in place, proved against
  * AgpsMachine. */
module Agps {
  import opened Wrappers
  import opened AgpsMachine

  class AgpsSubscriber {
    const handle: int
    const waits: bool
    var inactive: bool

    constructor (handle: int, waits: bool, inactive: bool)
      ensures this.handle == handle && this.waits == waits && this.inactive == inactive
    {
      this.handle, this.waits, this.inactive := handle, waits, inactive;
    }

    function View(): Sub
      reads this
    {
      Sub(handle, waits, inactive)
    }
  }

  function View(list: seq<AgpsSubscriber>): seq<Sub>
    reads list
  {
    if list == [] then [] else [list[0].View()] + View(list[1..])
  }

  lemma {:induction false} ViewAt(list: seq<AgpsSubscriber>)
    ensures |View(list)| == |list|
    ensures forall i :: 0 <= i < |list| ==> View(list)[i] == list[i].View()
  {
    if list != [] { ViewAt(list[1..]); }
  }

  lemma {:induction false} ViewAppend(list: seq<AgpsSubscriber>, s: AgpsSubscriber)
    ensures View(list + [s]) == View(list) + [s.View()]
  {
    if list != [] {
      ViewAppend(list[1..], s);
      assert (list + [s])[1..] == list[1..] + [s];
    }
  }

  lemma Associative<T>(a: seq<T>, b: seq<T>, c: seq<T>)
    ensures a + b + c == a + (b + c)
  {
  }

  /** One step of a walk over a list: the head of what is ahead moves to what is behind. */
  lemma WalkList<T>(kept: seq<T>, rest: seq<T>)
    requires rest != []
    ensures kept + [rest[0]] + rest[1..] == kept + rest
    ensures Erase(kept + rest, |kept|) == kept + rest[1..]
  {
  }

  lemma WalkView(done: seq<Sub>, rest: seq<AgpsSubscriber>)
    requires rest != []
    ensures done + [rest[0].View()] + View(rest[1..]) == done + View(rest)
  {
    Associative(done, [rest[0].View()], View(rest[1..]));
  }

  lemma WalkEnds(kept: seq<AgpsSubscriber>, rest: seq<AgpsSubscriber>, done: seq<Sub>)
    requires |kept| == |kept + rest|
    ensures kept + rest == kept && done + View(rest) == done
  {
    assert rest == [];
  }

  ghost predicate Within(list: seq<AgpsSubscriber>, whole: seq<AgpsSubscriber>) {
    forall i :: 0 <= i < |list| ==> list[i] in whole
  }

  lemma WithinStep(before: seq<AgpsSubscriber>, after: seq<AgpsSubscriber>, rest: seq<AgpsSubscriber>,
                   whole: seq<AgpsSubscriber>)
    requires rest != [] && Within(before, whole) && Within(rest, whole)
    requires after == before || after == before + [rest[0]]
    ensures Within(after, whole) && Within(rest[1..], whole)
  {
  }

  /** list::erase */
  function Erase<T>(list: seq<T>, i: nat): seq<T>
    requires i < |list|
  {
    list[..i] + list[i + 1..]
  }

  class AgpsStateMachine {
    var state: State
    var subscribers: seq<AgpsSubscriber>
    var outputs: seq<Output>  // the callbacks made so far

    ghost function Value(): Machine
      reads this, subscribers
    {
      Machine(state, View(subscribers))
    }

    /** No two subscribers share a handle, so no object is in the list twice. */
    ghost predicate Valid()
      reads this, subscribers
    {
      Distinct(View(subscribers))
    }

    constructor ()
      ensures Valid() && Value() == INIT && outputs == []
    {
      state, subscribers, outputs := Released, [], [];
    }

    method TransitionState(newState: State)
      modifies this`state
      ensures state == newState
    {
      state := newState;
    }

    method RequestOrReleaseDataConn(request: bool)
      modifies this`outputs
      ensures outputs == old(outputs) + [if request then RequestConn else ReleaseConn]
    {
      outputs := outputs + [if request then RequestConn else ReleaseConn];
    }

    method NotifyEventToSubscriber(notice: Notice, s: AgpsSubscriber)
      modifies this`outputs
      ensures outputs == old(outputs) + [Note(notice, s.handle)]
    {
      match notice
      case NoticeGranted => outputs := outputs + [OpenStatus(s.handle, true)];
      case NoticeDenied => outputs := outputs + [OpenStatus(s.handle, false)];
      case NoticeClosed => outputs := outputs + [CloseStatus(s.handle)];
    }

    /** How far a walk over the list got: `kept` is behind the iterator, `rest` ahead of it. */
    ghost predicate Walked(notice: Notice, deletePostNotify: bool, who: Audience, said: seq<Output>,
                           done: seq<Sub>, kept: seq<AgpsSubscriber>, rest: seq<AgpsSubscriber>)
      reads this, subscribers, kept, rest
    {
      && subscribers == kept + rest
      && outputs == said + Notes(notice, done, who)
      && View(kept) == if deletePostNotify then Rest(done, who) else done
    }

    /** The loop body of notifyAllSubscribers, for the element at position it. */
    method Visit(notice: Notice, deletePostNotify: bool, who: Audience, it: nat,
                 ghost said: seq<Output>, ghost done: seq<Sub>,
                 ghost kept: seq<AgpsSubscriber>, ghost rest: seq<AgpsSubscriber>)
      returns (next: nat, ghost kept': seq<AgpsSubscriber>)
      requires rest != [] && it == |kept|
      requires Walked(notice, deletePostNotify, who, said, done, kept, rest)
      modifies this`outputs, this`subscribers
      ensures Walked(notice, deletePostNotify, who, said, done + [rest[0].View()], kept', rest[1..])
      ensures next == |kept'| && (kept' == kept || kept' == kept + [rest[0]])
    {
      var s := subscribers[it];
      WalkList(kept, rest);
      NotesAppend(notice, done, s.View(), who);
      RestAppend(done, s.View(), who);
      ViewAppend(kept, s);
      next, kept' := it + 1, kept + [s];
      if who == Everyone || (who == Inactives && s.inactive) || (who == Actives && !s.inactive) {
        Associative(said, Notes(notice, done, who), [Note(notice, s.handle)]);
        NotifyEventToSubscriber(notice, s);
        if deletePostNotify {
          subscribers := Erase(subscribers, it);
          next, kept' := it, kept;
        }
      }
    }

    method NotifyAllSubscribers(notice: Notice, deletePostNotify: bool, who: Audience)
      modifies this`outputs, this`subscribers
      ensures outputs == old(outputs) + Notes(notice, old(View(subscribers)), who)
      ensures View(subscribers) ==
              if deletePostNotify then Rest(old(View(subscribers)), who) else old(View(subscribers))
      ensures Within(subscribers, old(subscribers))
    {
      ghost var done: seq<Sub>, kept: seq<AgpsSubscriber>, rest := [], [], subscribers;
      ghost var said, whole, all := outputs, subscribers, View(subscribers);
      var it := 0;
      while it < |subscribers|
        invariant it == |kept|
        invariant Walked(notice, deletePostNotify, who, said, done, kept, rest)
        invariant Within(kept, whole) && Within(rest, whole)
        invariant done + View(rest) == all
        decreases |rest|
      {
        WalkView(done, rest);
        ghost var s, before := rest[0].View(), kept;
        it, kept := Visit(notice, deletePostNotify, who, it, said, done, kept, rest);
        WithinStep(before, kept, rest, whole);
        done, rest := done + [s], rest[1..];
      }
      WalkEnds(kept, rest, done);
    }

    /** Notify and delete; what is left is still without duplicates. */
    method NotifyAndDelete(notice: Notice, who: Audience)
      requires Valid()
      modifies this`outputs, this`subscribers
      ensures Valid() && outputs == old(outputs) + Notes(notice, old(View(subscribers)), who)
      ensures View(subscribers) == Rest(old(View(subscribers)), who)
      ensures Within(subscribers, old(subscribers))
    {
      RestKeeps(View(subscribers), who);
      NotifyAllSubscribers(notice, true, who);
    }

    method AddSubscriber(handle: int, waits: bool, inactive: bool)
      requires Valid()
      modifies this`subscribers
      ensures Valid() && View(subscribers) == Add(old(View(subscribers)), Sub(handle, waits, inactive))
      ensures forall s :: s in subscribers ==> s in old(subscribers) || fresh(s)
    {
      ViewAt(subscribers);
      var it := 0;
      while it < |subscribers|
        invariant it <= |subscribers|
        invariant forall i :: 0 <= i < it ==> subscribers[i].handle != handle
      {
        if subscribers[it].handle == handle {
          assert View(subscribers)[it].handle == handle;
          return;
        }
        it := it + 1;
      }
      var cloned := new AgpsSubscriber(handle, waits, inactive);
      ViewAppend(subscribers, cloned);
      subscribers := subscribers + [cloned];
    }

    method DeleteSubscriber(handle: int)
      requires Valid()
      modifies this`subscribers
      ensures Valid() && View(subscribers) == Delete(old(View(subscribers)), handle)
      ensures Within(subscribers, old(subscribers))
    {
      ghost var done: seq<Sub>, kept: seq<AgpsSubscriber>, rest := [], [], subscribers;
      ghost var whole, all := subscribers, View(subscribers);
      var it := 0;
      while it < |subscribers|
        invariant it == |kept| && subscribers == kept + rest
        invariant Within(kept, whole) && Within(rest, whole)
        invariant done + View(rest) == all
        invariant View(kept) == Delete(done, handle)
        decreases |rest|
      {
        var s := subscribers[it];
        WalkList(kept, rest);
        WalkView(done, rest);
        DeleteAppend(done, s.View(), handle);
        ViewAppend(kept, s);
        WithinStep(kept, if s.handle == handle then kept else kept + [s], rest, whole);
        done, rest := done + [s.View()], rest[1..];
        if s.handle == handle {
          subscribers := Erase(subscribers, it);
        } else {
          kept := kept + [s];
          it := it + 1;
        }
      }
      WalkEnds(kept, rest, done);
      DistinctDelete(old(View(subscribers)), handle);
    }

    method AnyActiveSubscribers() returns (any: bool)
      ensures any == AnyActive(View(subscribers))
    {
      ViewAt(subscribers);
      var it := 0;
      while it < |subscribers|
        invariant it <= |subscribers|
        invariant forall i :: 0 <= i < it ==> subscribers[i].inactive
      {
        if !subscribers[it].inactive {
          assert View(subscribers)[it] in View(subscribers);
          return true;
        }
        it := it + 1;
      }
      return false;
    }

    method GetSubscriber(handle: int) returns (s: AgpsSubscriber?)
      ensures s == null <==> handle !in Handles(View(subscribers))
      ensures s != null ==> s in subscribers && s.handle == handle
    {
      ViewAt(subscribers);
      var it := 0;
      while it < |subscribers|
        invariant it <= |subscribers|
        invariant forall i :: 0 <= i < it ==> subscribers[i].handle != handle
      {
        if subscribers[it].handle == handle {
          assert View(subscribers)[it] in View(subscribers);
          return subscribers[it];
        }
        it := it + 1;
      }
      return null;
    }

    method DropAllSubscribers()
      modifies this`subscribers
      ensures subscribers == []
    {
      while subscribers != []
        decreases |subscribers|
      {
        subscribers := subscribers[1..];
      }
    }

    ghost predicate Did(before: Machine, said: seq<Output>, result: (Machine, seq<Output>))
      reads this, subscribers
    {
      Valid() && Value() == result.0 && outputs == said + result.1
    }

    /** mCurrentSubscriber->mIsInactive = true, on an element of the list. */
    method SetInactive(s: AgpsSubscriber)
      requires Valid() && s in subscribers
      modifies s`inactive
      ensures Valid() && View(subscribers) == Deactivate(old(View(subscribers)), s.handle)
    {
      ViewAt(subscribers);
      ghost var before := View(subscribers);
      s.inactive := true;
      ViewAt(subscribers);
      DeactivateAt(before, s.handle);
      assert forall i :: 0 <= i < |subscribers| && subscribers[i].handle == s.handle ==>
          before[i].handle == s.handle && subscribers[i] == s;
    }

    method ProcessAgpsEventSubscribe(current: AgpsSubscriber)
      requires Valid()
      modifies this
      ensures Did(old(Value()), old(outputs), OnSubscribe(old(Value()), old(current.View())))
      ensures forall s :: s in subscribers ==> s in old(subscribers) || fresh(s)
    {
      match state
      case Released =>
        AddSubscriber(current.handle, current.waits, current.inactive);
        RequestOrReleaseDataConn(true);
        TransitionState(Pending);
      case Pending =>
        AddSubscriber(current.handle, current.waits, current.inactive);
      case Acquired =>
        NotifyEventToSubscriber(NoticeGranted, current);
        AddSubscriber(current.handle, current.waits, current.inactive);
      case Releasing =>
        AddSubscriber(current.handle, current.waits, current.inactive);
    }

    /** A leaving subscriber goes inactive or is told and deleted. */
    method LeaveList(current: AgpsSubscriber)
      requires Valid() && current in subscribers
      modifies this`subscribers, this`outputs, current`inactive
      ensures Valid()
      ensures var (left, outs) := Leave(old(View(subscribers)), current.handle);
              View(subscribers) == left && outputs == old(outputs) + outs
      ensures forall s :: s in subscribers ==> s in old(subscribers) || fresh(s)
    {
      CurrentWaits(current);
      if current.waits {
        SetInactive(current);
      } else {
        NotifyEventToSubscriber(NoticeClosed, current);
        DeleteSubscriber(current.handle);
      }
    }

    lemma CurrentWaits(current: AgpsSubscriber)
      requires Valid() && current in subscribers
      ensures WaitsAt(View(subscribers), current.handle) <==> current.waits
    {
      ViewAt(subscribers);
      var i :| 0 <= i < |subscribers| && subscribers[i] == current;
      assert View(subscribers)[i] in View(subscribers);
    }

    /** The second half of UNSUBSCRIBE in state PENDING or ACQUIRED. */
    method ReleaseIfUnused()
      modifies this`state, this`outputs
      ensures subscribers == [] ==> state == Released
      ensures subscribers != [] && !AnyActive(View(subscribers)) ==> state == Releasing
      ensures AnyActive(View(subscribers)) ==> state == old(state)
      ensures outputs == old(outputs) + if AnyActive(View(subscribers)) then [] else [ReleaseConn]
    {
      if subscribers == [] {
        TransitionState(Released);
        RequestOrReleaseDataConn(false);
      } else {
        var any := AnyActiveSubscribers();
        if !any {
          TransitionState(Releasing);
          RequestOrReleaseDataConn(false);
        }
      }
    }

    /** UNSUBSCRIBE in state PENDING or ACQUIRED. */
    method LeaveConnected(current: AgpsSubscriber)
      requires Valid() && current in subscribers && (state == Pending || state == Acquired)
      modifies this, current`inactive
      ensures Did(old(Value()), old(outputs), OnUnsubscribe(old(Value()), current.handle))
      ensures forall s :: s in subscribers ==> s in old(subscribers) || fresh(s)
    {
      LeaveList(current);
      ReleaseIfUnused();
    }

    /** The manager passes an element of the list (`releaseATL`). */
    method ProcessAgpsEventUnsubscribe(current: AgpsSubscriber)
      requires Valid() && current in subscribers
      modifies this, current`inactive
      ensures Did(old(Value()), old(outputs), OnUnsubscribe(old(Value()), current.handle))
      ensures forall s :: s in subscribers ==> s in old(subscribers) || fresh(s)
    {
      match state
      case Released =>
        NotifyEventToSubscriber(NoticeClosed, current);
      case Pending | Acquired =>
        LeaveConnected(current);
      case Releasing =>
        LeaveList(current);
        if subscribers == [] {
          TransitionState(Released);
        }
    }

    method ProcessAgpsEventGranted()
      requires Valid()
      modifies this
      ensures Did(old(Value()), old(outputs), OnGranted(old(Value())))
      ensures forall s :: s in subscribers ==> s in old(subscribers) || fresh(s)
    {
      if state == Pending {
        TransitionState(Acquired);
        NotifyAllSubscribers(NoticeGranted, false, Actives);
      }
    }

    /** Active subscribers now wait for a new connection. */
    method RequestIfWanted()
      modifies this`state, this`outputs
      ensures state == if AnyActive(View(subscribers)) then Pending else Released
      ensures outputs == old(outputs) + if AnyActive(View(subscribers)) then [RequestConn] else []
    {
      var any := AnyActiveSubscribers();
      if any {
        TransitionState(Pending);
        RequestOrReleaseDataConn(true);
      } else {
        TransitionState(Released);
      }
    }

    /** RELEASED or DENIED in state RELEASING. */
    method ReleasingClosed()
      requires Valid() && state == Releasing
      modifies this
      ensures Did(old(Value()), old(outputs), AfterClose(old(Value())))
      ensures forall s :: s in subscribers ==> s in old(subscribers) || fresh(s)
    {
      ghost var notes := Notes(NoticeClosed, View(subscribers), Inactives);
      NotifyAndDelete(NoticeClosed, Inactives);
      RequestIfWanted();
      Associative(old(outputs), notes, [RequestConn]);
    }

    method ProcessAgpsEventReleased()
      requires Valid()
      modifies this
      ensures Did(old(Value()), old(outputs), OnReleased(old(Value())))
      ensures forall s :: s in subscribers ==> s in old(subscribers) || fresh(s)
    {
      match state
      case Released | Pending =>
      case Acquired =>
        TransitionState(Released);
        NotifyAndDelete(NoticeClosed, Everyone);
      case Releasing =>
        ReleasingClosed();
    }

    method ProcessAgpsEventDenied()
      requires Valid()
      modifies this
      ensures Did(old(Value()), old(outputs), OnDenied(old(Value())))
      ensures forall s :: s in subscribers ==> s in old(subscribers) || fresh(s)
    {
      match state
      case Released | Acquired =>
      case Releasing =>
        ReleasingClosed();
      case Pending =>
        TransitionState(Released);
        NotifyAndDelete(NoticeDenied, Everyone);
    }
  }

  datatype Logs = Logs(agnss: seq<Output>, internet: seq<Output>, manager: seq<Output>) {
    ghost predicate Grew(before: Logs, outs: seq<Output>) {
      || this == before.(agnss := before.agnss + outs)
      || this == before.(internet := before.internet + outs)
      || this == before.(manager := before.manager + outs)
    }
  }

  class AgpsManager {
    var agnss: AgpsStateMachine?
    var internet: AgpsStateMachine?
    var outputs: seq<Output>  // the callbacks of the manager itself

    ghost function Value(): Manager
      reads this, agnss, internet, Lists()
    {
      Manager(if agnss == null then None else Some(agnss.Value()),
              if internet == null then None else Some(internet.Value()))
    }

    ghost function Lists(): set<object>
      reads this, agnss, internet
    {
      (if agnss == null then {} else set s: AgpsSubscriber | s in agnss.subscribers)
      + (if internet == null then {} else set s: AgpsSubscriber | s in internet.subscribers)
    }

    /** Each machine has its own subscribers. */
    ghost predicate Valid()
      reads this, agnss, internet, Lists()
    {
      && (agnss != null ==> agnss.Valid())
      && (internet != null ==> internet.Valid())
      && (agnss != null && internet != null ==>
            && agnss != internet
            && forall s :: s in agnss.subscribers ==> s !in internet.subscribers)
    }

    /** The callbacks made so far by the two machines and by the manager itself. */
    ghost function Said(): Logs
      reads this, agnss, internet
    {
      Logs(if agnss == null then [] else agnss.outputs,
           if internet == null then [] else internet.outputs,
           outputs)
    }

    /** The manager did what Manage says: its new value, and the callbacks in one of the logs. */
    ghost predicate Managed(before: Manager, said: Logs, c: Command)
      reads this, agnss, internet, Lists()
    {
      && Valid()
      && Value() == Manage(before, c).0
      && Said().Grew(said, Manage(before, c).1)
    }

    constructor (agnss: AgpsStateMachine?, internet: AgpsStateMachine?)
      requires agnss != null ==> agnss.Valid() && agnss.subscribers == []
      requires internet != null ==> internet.Valid() && internet != agnss
      ensures Valid() && this.agnss == agnss && this.internet == internet
    {
      this.agnss, this.internet, outputs := agnss, internet, [];
    }

    method GetAgpsStateMachine(kind: AgpsType) returns (sm: AgpsStateMachine?)
      ensures sm == if UsesAgnss(kind) then agnss else internet
    {
      match kind
      case InvalidType | Supl | SuplEs => sm := agnss;
      case WwanAny => sm := internet;
      case AnyType => sm := internet;
    }

    method RequestATL(handle: int, kind: AgpsType)
      requires Valid()
      modifies this, agnss, internet
      ensures Managed(old(Value()), old(Said()), RequestAtl(handle, kind))
    {
      var sm := GetAgpsStateMachine(kind);
      if sm == null {
        outputs := outputs + [OpenStatus(handle, false)];
        return;
      }
      var subscriber := new AgpsSubscriber(handle, true, false);
      SendSubscribe(sm, subscriber);
    }

    ghost predicate Routed(before: Manager, said: Logs, toAgnss: bool, e: Event)
      reads this, agnss, internet, Lists()
    {
      && Valid()
      && Value() == Route(before, toAgnss, e).0
      && Said().Grew(said, Route(before, toAgnss, e).1)
    }

    method SendSubscribe(sm: AgpsStateMachine, subscriber: AgpsSubscriber)
      requires Valid() && (sm == agnss || sm == internet)
      modifies sm
      ensures Routed(old(Value()), old(Said()), sm == agnss, Subscribe(old(subscriber.View())))
    {
      sm.ProcessAgpsEventSubscribe(subscriber);
    }

    method SendUnsubscribe(sm: AgpsStateMachine, subscriber: AgpsSubscriber)
      requires Valid() && (sm == agnss || sm == internet) && subscriber in sm.subscribers
      modifies sm, subscriber
      ensures Routed(old(Value()), old(Said()), sm == agnss, Unsubscribe(subscriber.handle))
    {
      sm.ProcessAgpsEventUnsubscribe(subscriber);
    }

    method SendGranted(sm: AgpsStateMachine)
      requires Valid() && (sm == agnss || sm == internet)
      modifies sm
      ensures Routed(old(Value()), old(Said()), sm == agnss, GrantedEvent)
    {
      sm.ProcessAgpsEventGranted();
    }

    method SendReleased(sm: AgpsStateMachine)
      requires Valid() && (sm == agnss || sm == internet)
      modifies sm
      ensures Routed(old(Value()), old(Said()), sm == agnss, ReleasedEvent)
    {
      sm.ProcessAgpsEventReleased();
    }

    method SendDenied(sm: AgpsStateMachine)
      requires Valid() && (sm == agnss || sm == internet)
      modifies sm
      ensures Routed(old(Value()), old(Said()), sm == agnss, DeniedEvent)
    {
      sm.ProcessAgpsEventDenied();
    }

    method ReleaseATL(handle: int)
      requires Valid()
      modifies this, agnss, internet, Lists()
      ensures Managed(old(Value()), old(Said()), ReleaseAtl(handle))
    {
      var sm: AgpsStateMachine?, subscriber: AgpsSubscriber? := null, null;
      if agnss != null {
        subscriber := agnss.GetSubscriber(handle);
        if subscriber != null {
          sm := agnss;
        }
      }
      if sm == null && internet != null {
        subscriber := internet.GetSubscriber(handle);
        if subscriber != null {
          sm := internet;
        }
      }
      if sm != null {
        SendUnsubscribe(sm, subscriber);
      }
    }

    method ReportAtlOpenSuccess(kind: AgpsType)
      requires Valid()
      modifies agnss, internet
      ensures Managed(old(Value()), old(Said()), ReportOpenSuccess(kind))
    {
      var sm := GetAgpsStateMachine(kind);
      if sm != null {
        SendGranted(sm);
      }
    }

    method ReportAtlOpenFailed(kind: AgpsType)
      requires Valid()
      modifies agnss, internet
      ensures Managed(old(Value()), old(Said()), ReportOpenFailed(kind))
    {
      var sm := GetAgpsStateMachine(kind);
      if sm != null {
        SendDenied(sm);
      }
    }

    method ReportAtlClosed(kind: AgpsType)
      requires Valid()
      modifies agnss, internet
      ensures Managed(old(Value()), old(Said()), ReportClosed(kind))
    {
      var sm := GetAgpsStateMachine(kind);
      if sm != null {
        SendReleased(sm);
      }
    }

    method HandleModemSSR()
      requires Valid()
      modifies agnss, internet
      ensures Managed(old(Value()), old(Said()), HandleModemSsr)
    {
      if agnss != null {
        agnss.DropAllSubscribers();
      }
      if internet != null {
        internet.DropAllSubscribers();
      }
    }
  }
}
