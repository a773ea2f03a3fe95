/** Which machine each call of the manager reaches, and what it does there, type by type. */
module AgpsRouting {
  import opened Wrappers
  import opened AgpsMachine
  import opened AgpsRuns

  predicate ForAgnss(kind: AgpsType) { kind == InvalidType || kind == Supl || kind == SuplEs }
  predicate ForInternet(kind: AgpsType) { kind == AnyType || kind == WwanAny }

  predicate HasKind(c: Command) {
    c.RequestAtl? || c.ReportOpenSuccess? || c.ReportOpenFailed? || c.ReportClosed?
  }

  /** The machine a type stands for. */
  function Of(mgr: Manager, kind: AgpsType): Option<Machine> {
    if ForInternet(kind) then mgr.internet else mgr.agnss
  }

  /** A call for a type leaves the other machine as it is. */
  lemma OtherUntouched(mgr: Manager, c: Command)
    requires HasKind(c)
    ensures ForAgnss(c.kind) ==> Manage(mgr, c).0.internet == mgr.internet
    ensures ForInternet(c.kind) ==> Manage(mgr, c).0.agnss == mgr.agnss
    ensures ForAgnss(c.kind) <==> !ForInternet(c.kind)
  {
    match c.kind {
      case InvalidType | Supl | SuplEs =>
      case AnyType | WwanAny =>
    }
  }

  /** A request is answered by one failure when the type has no machine; else the handle is listed with
    * it, waiting for a close, and the state decides what is called. */
  lemma RequestReaches(mgr: Manager, h: int, kind: AgpsType)
    ensures var (after, outs) := Manage(mgr, RequestAtl(h, kind));
            var (m, m') := (Of(mgr, kind), Of(after, kind));
      && (m.None? ==> after == mgr && outs == [OpenStatus(h, false)])
      && (m.Some? ==>
            && m'.Some? && h in Handles(m'.value.subs)
            && (h !in Handles(m.value.subs) ==> m'.value.subs == m.value.subs + [Sub(h, true, false)])
            && (h in Handles(m.value.subs) ==> m'.value.subs == m.value.subs)
            && (m.value.state == Released ==> m'.value.state == Pending && outs == [RequestConn])
            && (m.value.state == Acquired ==> m'.value.state == Acquired && outs == [OpenStatus(h, true)])
            && (m.value.state in {Pending, Releasing} ==> m'.value.state == m.value.state && outs == []))
  {
    var m := Of(mgr, kind);
    if m.Some? && h !in Handles(m.value.subs) {
      assert Sub(h, true, false) in m.value.subs + [Sub(h, true, false)];
    }
  }

  lemma {:induction false} NotesOf(notice: Notice, subs: seq<Sub>, who: Audience, out: Output)
    ensures out in Notes(notice, subs, who) <==> exists s :: s in subs && Meant(who, s) && out == Note(notice, s.handle)
  {
    if subs != [] {
      NotesOf(notice, subs[1..], who, out);
      assert forall s :: s in subs <==> s == subs[0] || s in subs[1..];
    }
  }

  /** A success report takes the awaited connection of its type, and tells exactly the active. */
  lemma SuccessReaches(mgr: Manager, kind: AgpsType)
    requires Of(mgr, kind).Some? && Of(mgr, kind).value.state == Pending
    ensures var m := Of(mgr, kind).value;
            var (after, outs) := Manage(mgr, ReportOpenSuccess(kind));
      && Of(after, kind) == Some(Machine(Acquired, m.subs))
      && forall out :: out in outs <==> exists s :: s in m.subs && !s.inactive && out == OpenStatus(s.handle, true)
  {
    var m := Of(mgr, kind).value;
    var outs := Manage(mgr, ReportOpenSuccess(kind)).1;
    forall out ensures out in outs <==> exists s :: s in m.subs && !s.inactive && out == OpenStatus(s.handle, true) {
      NotesOf(NoticeGranted, m.subs, Actives, out);
    }
  }

  /** A failure report empties the list of a pending machine of its type, with a failure to each. */
  lemma FailureReaches(mgr: Manager, kind: AgpsType)
    requires Of(mgr, kind).Some? && Of(mgr, kind).value.state == Pending
    ensures var m := Of(mgr, kind).value;
            var (after, outs) := Manage(mgr, ReportOpenFailed(kind));
      && Of(after, kind) == Some(Machine(Released, []))
      && forall out :: out in outs <==> exists s :: s in m.subs && out == OpenStatus(s.handle, false)
  {
    var m := Of(mgr, kind).value;
    RestEveryone(m.subs);
    var outs := Manage(mgr, ReportOpenFailed(kind)).1;
    forall out ensures out in outs <==> exists s :: s in m.subs && out == OpenStatus(s.handle, false) {
      NotesOf(NoticeDenied, m.subs, Everyone, out);
    }
  }

  /** A close report empties the list of an acquired machine of its type, with a close to each. */
  lemma CloseReaches(mgr: Manager, kind: AgpsType)
    requires Of(mgr, kind).Some? && Of(mgr, kind).value.state == Acquired
    ensures var m := Of(mgr, kind).value;
            var (after, outs) := Manage(mgr, ReportClosed(kind));
      && Of(after, kind) == Some(Machine(Released, []))
      && forall out :: out in outs <==> exists s :: s in m.subs && out == CloseStatus(s.handle)
  {
    var m := Of(mgr, kind).value;
    RestEveryone(m.subs);
    var outs := Manage(mgr, ReportClosed(kind)).1;
    forall out ensures out in outs <==> exists s :: s in m.subs && out == CloseStatus(s.handle) {
      NotesOf(NoticeClosed, m.subs, Everyone, out);
    }
  }

  lemma {:induction false} RestIsActive(subs: seq<Sub>)
    ensures forall s :: s in Rest(subs, Inactives) <==> s in subs && !s.inactive
  {
    if subs != [] {
      RestIsActive(subs[1..]);
      assert forall s :: s in subs <==> s == subs[0] || s in subs[1..];
    }
  }

  /** A close or a failure that ends a release: the waiting are told the close and leave; with active
    * ones left the connection is requested anew. */
  lemma ReleaseEnds(mgr: Manager, c: Command)
    requires c.ReportClosed? || c.ReportOpenFailed?
    requires Of(mgr, c.kind).Some? && Of(mgr, c.kind).value.state == Releasing
    ensures var m := Of(mgr, c.kind).value;
            var (after, outs) := Manage(mgr, c);
            var m' := Of(after, c.kind);
      && m'.Some?
      && (forall s :: s in m'.value.subs <==> s in m.subs && !s.inactive)
      && m'.value.state == (if AnyActive(m.subs) then Pending else Released)
      && (forall out :: out in outs <==>
            || (out == RequestConn && AnyActive(m.subs))
            || exists s :: s in m.subs && s.inactive && out == CloseStatus(s.handle))
  {
    var m := Of(mgr, c.kind).value;
    RestIsActive(m.subs);
    var outs := Manage(mgr, c).1;
    forall out
      ensures out in outs <==>
              || (out == RequestConn && AnyActive(m.subs))
              || exists s :: s in m.subs && s.inactive && out == CloseStatus(s.handle)
    {
      NotesOf(NoticeClosed, m.subs, Inactives, out);
    }
  }

  /** Reports that a machine does not wait for change and call nothing. */
  lemma StrayReports(mgr: Manager, c: Command)
    requires HasKind(c) && !c.RequestAtl? && Of(mgr, c.kind).Some?
    requires var s := Of(mgr, c.kind).value.state;
      && (c.ReportOpenSuccess? ==> s != Pending)
      && (c.ReportOpenFailed? ==> s in {Released, Acquired})
      && (c.ReportClosed? ==> s in {Released, Pending})
    ensures Manage(mgr, c) == (mgr, [])
  {
  }

  lemma RestartEmptiesBoth(mgr: Manager)
    ensures var (after, outs) := Manage(mgr, HandleModemSsr);
      && outs == []
      && after.agnss == (if mgr.agnss.None? then None else Some(Machine(mgr.agnss.value.state, [])))
      && after.internet == (if mgr.internet.None? then None else Some(Machine(mgr.internet.value.state, [])))
  {
  }

  /** A release for a handle goes to the machine that lists it, the one for assisted GNSS first; for a
    * handle in no list nothing happens. */
  lemma ReleaseReaches(mgr: Manager, h: int)
    ensures var (after, outs) := Manage(mgr, ReleaseAtl(h));
            var inAgnss := mgr.agnss.Some? && h in Handles(mgr.agnss.value.subs);
            var inInternet := mgr.internet.Some? && h in Handles(mgr.internet.value.subs);
      && (inAgnss ==> after.internet == mgr.internet)
      && (!inAgnss && inInternet ==> after.agnss == mgr.agnss)
      && (!inAgnss && !inInternet ==> after == mgr && outs == [])
  {
  }

  lemma OneLeaves(h: int)
    ensures OnUnsubscribe(Machine(Acquired, [Sub(h, true, false)]), h) ==
            (Machine(Releasing, [Sub(h, true, true)]), [ReleaseConn])
  {
    var s, t := Sub(h, true, false), Sub(h, true, true);
    var quiet: seq<Output> := [];
    assert s in [s] && WaitsAt([s], h);
    DeactivateAt([s], h);
    assert Deactivate([s], h) == [t];
    assert !AnyActive([t]) && [t] != [];
    assert quiet + [ReleaseConn] == [ReleaseConn];
  }

  /** One client alone, from its request to the close, for each type: it is listed until the close that
    * follows its release, and is told each step once. */
  lemma WholeConnection(mgr: Manager, h: int, kind: AgpsType)
    requires Of(mgr, kind) == Some(Machine(Released, []))
    requires ForInternet(kind) && mgr.agnss.Some? ==> h !in Handles(mgr.agnss.value.subs)
    ensures var (m1, outs1) := Manage(mgr, RequestAtl(h, kind));
            var (m2, outs2) := Manage(m1, ReportOpenSuccess(kind));
            var (m3, outs3) := Manage(m2, ReleaseAtl(h));
            var (m4, outs4) := Manage(m3, ReportClosed(kind));
      && Of(m1, kind) == Some(Machine(Pending, [Sub(h, true, false)])) && outs1 == [RequestConn]
      && Of(m2, kind) == Some(Machine(Acquired, [Sub(h, true, false)])) && outs2 == [OpenStatus(h, true)]
      && Of(m3, kind) == Some(Machine(Releasing, [Sub(h, true, true)])) && outs3 == [ReleaseConn]
      && m4 == mgr && outs4 == [CloseStatus(h)]
  {
    var s, t := Sub(h, true, false), Sub(h, true, true);
    var m1 := Manage(mgr, RequestAtl(h, kind)).0;
    var m2 := Manage(m1, ReportOpenSuccess(kind)).0;
    var m3 := Manage(m2, ReleaseAtl(h)).0;
    RequestReaches(mgr, h, kind);
    var none: seq<Sub> := [];
    assert none + [s] == [s] && h !in Handles(none) && h in Handles([s]);
    assert [s][1..] == [] && [t][1..] == [] && [s][0] in [s] && [t][0] in [t];
    assert Of(m1, kind) == Some(Machine(Pending, [s]));
    assert Notes(NoticeGranted, [s], Actives) == [OpenStatus(h, true)] + Notes(NoticeGranted, [], Actives);
    assert Of(m2, kind) == Some(Machine(Acquired, [s]));
    OneLeaves(h);
    assert ForInternet(kind) ==> m2.agnss == mgr.agnss;
    assert Of(m3, kind) == Some(Machine(Releasing, [t]));
    assert Notes(NoticeClosed, [t], Inactives) == [CloseStatus(h)] + Notes(NoticeClosed, [], Inactives);
    assert Rest([t], Inactives) == Rest([], Inactives);
  }
}
