/** The two maps of gps/geofence/GeofenceAdapter.cpp: hardware ids to geofences, and client keys to
  * hardware ids. */
module Geofence {

  datatype Key = Key(client: int, id: int)

  datatype Options = Options(breachMask: int, responsiveness: int, dwellTime: int, confidence: int)
  datatype Info = Info(latitude: real, longitude: real, radius: real)
  datatype Object = Object(key: Key, options: Options, info: Info, paused: bool)

  /** Both maps, and the hardware ids of stopped clients whose removal is not answered yet. */
  datatype Fences = Fences(geofences: map<int, Object>, ids: map<Key, int>, stopping: set<int>)

  datatype Event =
    | Save(key: Key, hwId: int, options: Options, info: Info)
    | RemoveDone(hwId: int, ok: bool)       // the reply to a remove command
    | Pause(hwId: int)
    | Resume(hwId: int)
    | Modify(hwId: int, options: Options)
    | StopClient(client: int)
    | StopDone(hwId: int, ok: bool)
    | Clear                                 // engine restart; the fences are saved anew one by one

  function OnRemove(f: Fences, hwId: int): Fences {
    if hwId in f.geofences && f.geofences[hwId].key in f.ids
    then f.(ids := f.ids - {f.geofences[hwId].key}, geofences := f.geofences - {hwId})
    else f
  }

  function KeysOf(f: Fences, client: int): set<Key> { set k | k in f.ids && k.client == client }

  /** The hardware ids for which a stop of the client asks a removal. */
  function Asked(f: Fences, client: int): set<int> { set k | k in KeysOf(f, client) :: f.ids[k] }

  function Put(f: Fences, hwId: int, o: Object): Fences { f.(geofences := f.geofences[hwId := o]) }

  function Step(f: Fences, e: Event): Fences {
    match e
    case Save(k, h, o, i) => f.(geofences := f.geofences[h := Object(k, o, i, false)], ids := f.ids[k := h])
    case RemoveDone(h, ok) => if ok then OnRemove(f, h) else f
    case Pause(h) => if h in f.geofences then Put(f, h, f.geofences[h].(paused := true)) else f
    case Resume(h) => if h in f.geofences then Put(f, h, f.geofences[h].(paused := false)) else f
    case Modify(h, o) => if h in f.geofences then Put(f, h, f.geofences[h].(options := o)) else f
    case StopClient(c) =>
      f.(ids := f.ids - KeysOf(f, c), stopping := f.stopping + Asked(f, c))
    case StopDone(h, ok) =>
      f.(geofences := if ok then f.geofences - {h} else f.geofences, stopping := f.stopping - {h})
    case Clear => f.(geofences := map[], ids := map[])
  }

  // ---------- Every listed key leads to its own geofence ----------

  ghost predicate Linked(f: Fences) {
    forall k :: k in f.ids ==> f.ids[k] in f.geofences && f.geofences[f.ids[k]].key == k
  }

  /** No listed key leads to an id whose geofence a stopped client's removal will erase. */
  ghost predicate Reserved(f: Fences) {
    forall k :: k in f.ids ==> f.ids[k] !in f.stopping
  }

  /** The engine gives a new geofence an id that is neither stored nor awaiting the removal reply of
    * a stopped client; such replies come only when asked for. */
  predicate Engine(f: Fences, e: Event) {
    match e
    case Save(_, h, _, _) => h !in f.geofences && h !in f.stopping
    case StopDone(h, _) => h in f.stopping
    case _ => true
  }

  lemma StepKeepsLinked(f: Fences, e: Event)
    requires Linked(f) && Reserved(f) && Engine(f, e)
    ensures Linked(Step(f, e)) && Reserved(Step(f, e))
  {
    match e
    case StopClient(c) =>
      forall k | k in Step(f, e).ids ensures f.ids[k] !in Step(f, e).stopping {
        forall l | l in KeysOf(f, c) ensures f.ids[l] != f.ids[k] {
          assert f.geofences[f.ids[l]].key == l;
        }
      }
    case _ =>
  }

  /** The hardware ids whose removal is awaited for a stopped client: asked for, and not answered. */
  lemma AwaitedIff(f: Fences, e: Event, h: int)
    ensures h in Step(f, e).stopping <==>
            match e
            case StopClient(c) => h in f.stopping || exists k :: k in f.ids && k.client == c && f.ids[k] == h
            case StopDone(g, _) => h in f.stopping && h != g
            case _ => h in f.stopping
  {
  }

  function Run(f: Fences, es: seq<Event>): Fences
    decreases |es|
  {
    if es == [] then f else Run(Step(f, es[0]), es[1..])
  }

  predicate EngineRun(f: Fences, es: seq<Event>)
    decreases |es|
  {
    es == [] || (Engine(f, es[0]) && EngineRun(Step(f, es[0]), es[1..]))
  }

  lemma {:induction false} RunKeepsLinked(f: Fences, es: seq<Event>)
    requires Linked(f) && Reserved(f) && EngineRun(f, es)
    ensures Linked(Run(f, es))
    decreases |es|
  {
    if es != [] {
      StepKeepsLinked(f, es[0]);
      RunKeepsLinked(Step(f, es[0]), es[1..]);
    }
  }

  /** Without that promise: saving keeps the link of every key exactly when no other key holds the
    * hardware id. */
  lemma SaveLinkedIff(f: Fences, k: Key, h: int, o: Options, i: Info)
    requires Linked(f)
    ensures Linked(Step(f, Save(k, h, o, i))) <==> forall l :: l in f.ids && l != k ==> f.ids[l] != h
  {
    var g := Step(f, Save(k, h, o, i));
    forall l | l in f.ids && l != k ensures g.ids[l] == f.ids[l] {
    }
    if l :| l in f.ids && l != k && f.ids[l] == h {
      assert l in g.ids && g.geofences[g.ids[l]].key == k;
    }
  }

  /** Removing a fence that was just saved restores both maps. */
  lemma RemoveUndoesSave(f: Fences, k: Key, h: int, o: Options, i: Info)
    requires h !in f.geofences && k !in f.ids
    ensures Step(Step(f, Save(k, h, o, i)), RemoveDone(h, true)) == f
  {
    var g := Step(f, Save(k, h, o, i));
    assert g.geofences - {h} == f.geofences;
    assert g.ids - {k} == f.ids;
  }

  /** The replies to such removals, each with its hardware id and success. */
  function Replies(replies: seq<(int, bool)>): seq<Event> {
    if replies == [] then [] else [StopDone(replies[0].0, replies[0].1)] + Replies(replies[1..])
  }

  function Freed(replies: seq<(int, bool)>): set<int> { set r | r in replies && r.1 :: r.0 }

  lemma {:induction false} RepliesFree(f: Fences, replies: seq<(int, bool)>)
    ensures var g := Run(f, Replies(replies));
            g.ids == f.ids && g.geofences == f.geofences - Freed(replies)
    decreases |replies|
  {
    if replies != [] {
      var (h, ok) := replies[0];
      RepliesFree(Step(f, StopDone(h, ok)), replies[1..]);
      assert Replies(replies)[1..] == Replies(replies[1..]);
      assert Freed(replies) == Freed(replies[1..]) + if ok then {h} else {};
      assert f.geofences - Freed(replies) == (if ok then f.geofences - {h} else f.geofences) - Freed(replies[1..]);
    }
  }

  /** A client stops, and its removals are answered in any order, some maybe without success: its keys
    * are gone, every key of the others still leads to its own geofence, and with all of them
    * successful exactly the geofences of its keys are gone. */
  lemma StopErasesClient(f: Fences, c: int, replies: seq<(int, bool)>)
    requires Linked(f) && forall r :: r in replies ==> r.0 in Asked(f, c)
    ensures var g := Run(Step(f, StopClient(c)), Replies(replies));
      && g.ids == f.ids - KeysOf(f, c)
      && g.geofences == f.geofences - Freed(replies)
      && Linked(g)
      && ((forall h :: h in Asked(f, c) ==> (h, true) in replies) ==>
            forall k :: k in f.ids ==> (f.ids[k] in g.geofences <==> k.client != c))
  {
    var stopped := Step(f, StopClient(c));
    RepliesFree(stopped, replies);
    forall k | k in f.ids && k.client != c ensures f.ids[k] !in Asked(f, c) {
      assert f.geofences[f.ids[k]].key == k;
    }
    forall h | (h, true) in replies ensures h in Freed(replies) {
      assert (h, true).0 == h;
    }
    assert Freed(replies) <= Asked(f, c);
    if forall h :: h in Asked(f, c) ==> (h, true) in replies {
      forall k | k in f.ids ensures f.ids[k] in Freed(replies) <==> k.client == c {
        if k.client == c { assert k in KeysOf(f, c) && f.ids[k] in Asked(f, c); }
      }
    }
  }

  /** A geofence goes only on a successful removal reply for it, or when the engine restarts. */
  lemma GoneIff(f: Fences, e: Event, h: int)
    requires Linked(f) && h in f.geofences
    ensures h !in Step(f, e).geofences <==>
            || (e == RemoveDone(h, true) && f.geofences[h].key in f.ids)
            || e == StopDone(h, true)
            || e == Clear
  {
  }

  /** What a command makes of the geofence of an id, if it names the id. */
  function Edited(o: Object, e: Event, h: int): Object {
    match e
    case Save(k, g, opts, i) => if g == h then Object(k, opts, i, false) else o
    case Pause(g) => if g == h then o.(paused := true) else o
    case Resume(g) => if g == h then o.(paused := false) else o
    case Modify(g, opts) => if g == h then o.(options := opts) else o
    case _ => o
  }

  function EditedAll(o: Object, es: seq<Event>, h: int): Object
    decreases |es|
  {
    if es == [] then o else EditedAll(Edited(o, es[0], h), es[1..], h)
  }

  /** Over any run a stored geofence is what the commands naming its id made of it; those for other
    * ids, replies and stopped clients do not touch it. */
  lemma {:induction false} StoredIsEdited(f: Fences, es: seq<Event>, h: int, o: Object)
    requires h in f.geofences ==> f.geofences[h] == o
    requires h in Run(f, es).geofences
    ensures Run(f, es).geofences[h] == EditedAll(o, es, h)
    decreases |es|
  {
    if es != [] { StoredIsEdited(Step(f, es[0]), es[1..], h, Edited(o, es[0], h)); }
  }

  // ---------- Breaches ----------

  /** The owners of the known hardware ids, in the order reported. */
  function Owners(geofences: map<int, Object>, hwIds: seq<int>): seq<Key> {
    if hwIds == [] then []
    else if hwIds[|hwIds| - 1] in geofences
    then Owners(geofences, hwIds[..|hwIds| - 1]) + [geofences[hwIds[|hwIds| - 1]].key]
    else Owners(geofences, hwIds[..|hwIds| - 1])
  }

  /** The ids of one client among the owners, in their order. */
  function Share(owners: seq<Key>, client: int): seq<int> {
    if owners == [] then []
    else if owners[|owners| - 1].client == client
    then Share(owners[..|owners| - 1], client) + [owners[|owners| - 1].id]
    else Share(owners[..|owners| - 1], client)
  }

  lemma OwnersAppend(geofences: map<int, Object>, hwIds: seq<int>, i: nat)
    requires i < |hwIds|
    ensures var front := Owners(geofences, hwIds[..i]);
            Owners(geofences, hwIds[..i + 1]) ==
              if hwIds[i] in geofences then front + [geofences[hwIds[i]].key] else front
  {
    assert hwIds[..i + 1][..i] == hwIds[..i];
  }

  lemma ShareAppend(owners: seq<Key>, k: Key, client: int)
    ensures Share(owners + [k], client) ==
            if k.client == client then Share(owners, client) + [k.id] else Share(owners, client)
  {
    assert (owners + [k])[..|owners|] == owners;
  }

  /** Order is kept: the share of a report is the share of its beginning, then that of its end. */
  lemma {:induction false} ShareConcat(a: seq<Key>, b: seq<Key>, client: int)
    ensures Share(a + b, client) == Share(a, client) + Share(b, client)
  {
    if b == [] {
      assert a + b == a;
    } else {
      var front, k := b[..|b| - 1], b[|b| - 1];
      assert a + b == (a + front) + [k] && b == front + [k];
      ShareAppend(a + front, k, client);
      ShareAppend(front, k, client);
      ShareConcat(a, front, client);
    }
  }

  /** Nothing is lost or duplicated: each key is told to its client as often as it was reported. */
  lemma {:induction false} SharesAreExact(owners: seq<Key>, client: int, id: int)
    ensures multiset(Share(owners, client))[id] == multiset(owners)[Key(client, id)]
  {
    if owners != [] {
      var front, k := owners[..|owners| - 1], owners[|owners| - 1];
      assert owners == front + [k];
      ShareAppend(front, k, client);
      SharesAreExact(front, client, id);
    }
  }

  function Total(owners: seq<Key>, clients: seq<int>): nat {
    if clients == [] then 0 else |Share(owners, clients[0])| + Total(owners, clients[1..])
  }

  predicate NoRepeats(clients: seq<int>) {
    forall i, j :: 0 <= i < j < |clients| ==> clients[i] != clients[j]
  }

  lemma {:induction false} TotalAppend(owners: seq<Key>, k: Key, clients: seq<int>)
    requires NoRepeats(clients)
    ensures Total(owners + [k], clients) == Total(owners, clients) + if k.client in clients then 1 else 0
  {
    if clients != [] {
      TotalAppend(owners, k, clients[1..]);
      ShareAppend(owners, k, clients[0]);
    }
  }

  /** The shares of all clients together are as many as the known hardware ids. */
  lemma {:induction false} SharesAddUp(owners: seq<Key>, clients: seq<int>)
    requires NoRepeats(clients) && forall k :: k in owners ==> k.client in clients
    ensures Total(owners, clients) == |owners|
  {
    if owners == [] {
      NothingShared(clients);
    } else {
      var front, k := owners[..|owners| - 1], owners[|owners| - 1];
      assert owners == front + [k];
      SharesAddUp(front, clients);
      TotalAppend(front, k, clients);
    }
  }

  lemma {:induction false} NothingShared(clients: seq<int>)
    ensures Total([], clients) == 0
  {
    if clients != [] { NothingShared(clients[1..]); }
  }

  // ---------- The adapter ----------

  /** The removal calls for these keys: hardware id and the client's own id. */
  function Removals(f: Fences, keys: set<Key>): set<(int, int)>
    requires keys <= f.ids.Keys
  {
    set k | k in keys :: (f.ids[k], k.id)
  }

  lemma OneMoreAsked(f: Fences, client: int, keys: set<Key>, k: Key)
    requires keys <= KeysOf(f, client) && k in KeysOf(f, client) && k !in keys
    ensures Removals(f, keys + {k}) == Removals(f, keys) + {(f.ids[k], k.id)}
    ensures (f.ids[k], k.id) !in Removals(f, keys)
  {
  }

  datatype Notice = Notice(client: int, ids: seq<int>)

  class GeofenceAdapter {
    var mGeofences: map<int, Object>
    var mGeofenceIds: map<Key, int>
    var clientData: seq<(int, bool)>   // clients in map order, and whether each has a breach callback
    var removals: seq<(int, int)>      // removeGeofence calls: hardware id and client's id
    var breaches: seq<Notice>

    constructor ()
      ensures mGeofences == map[] && mGeofenceIds == map[] && removals == [] && breaches == []
    {
      mGeofences, mGeofenceIds, clientData, removals, breaches := map[], map[], [], [], [];
    }

    /** The two maps are those of f. */
    ghost predicate Has(f: Fences)
      reads this
    {
      mGeofences == f.geofences && mGeofenceIds == f.ids
    }

    method SaveGeofenceItem(client: int, clientId: int, hwId: int, options: Options, info: Info, ghost f: Fences)
      requires Has(f)
      modifies this`mGeofences, this`mGeofenceIds
      ensures Has(Step(f, Save(Key(client, clientId), hwId, options, info)))
    {
      var key := Key(client, clientId);
      mGeofences := mGeofences[hwId := Object(key, options, info, false)];
      mGeofenceIds := mGeofenceIds[key := hwId];
    }

    method RemoveGeofenceItem(hwId: int, ghost f: Fences)
      requires Has(f)
      modifies this`mGeofences, this`mGeofenceIds
      ensures Has(Step(f, RemoveDone(hwId, true)))
    {
      if hwId in mGeofences {
        var key := mGeofences[hwId].key;
        if key in mGeofenceIds {
          mGeofenceIds := mGeofenceIds - {key};
          if hwId in mGeofences {
            mGeofences := mGeofences - {hwId};
          }
        }
      }
    }

    method PauseGeofenceItem(hwId: int, ghost f: Fences)
      requires Has(f)
      modifies this`mGeofences
      ensures Has(Step(f, Pause(hwId)))
    {
      if hwId in mGeofences {
        mGeofences := mGeofences[hwId := mGeofences[hwId].(paused := true)];
      }
    }

    method ResumeGeofenceItem(hwId: int, ghost f: Fences)
      requires Has(f)
      modifies this`mGeofences
      ensures Has(Step(f, Resume(hwId)))
    {
      if hwId in mGeofences {
        mGeofences := mGeofences[hwId := mGeofences[hwId].(paused := false)];
      }
    }

    method ModifyGeofenceItem(hwId: int, options: Options, ghost f: Fences)
      requires Has(f)
      modifies this`mGeofences
      ensures Has(Step(f, Modify(hwId, options)))
    {
      if hwId in mGeofences {
        mGeofences := mGeofences[hwId := mGeofences[hwId].(options := options)];
      }
    }

    /** With eraseSession: the client's keys go at once, a removal is asked for each. */
    method StopClientSessions(client: int, ghost f: Fences)
      requires Has(f)
      modifies this`mGeofenceIds, this`removals
      ensures Has(Step(f, StopClient(client)))
      ensures |old(removals)| <= |removals| && removals[..|old(removals)|] == old(removals)
      ensures multiset(removals[|old(removals)|..]) ==
              multiset(Removals(f, KeysOf(f, client)))
    {
      ghost var asked: seq<(int, int)> := [];
      var ahead := mGeofenceIds.Keys;
      while ahead != {}
        invariant ahead <= f.ids.Keys && mGeofences == f.geofences
        invariant mGeofenceIds == f.ids - (KeysOf(f, client) - ahead)
        invariant removals == old(removals) + asked
        invariant multiset(asked) == multiset(Removals(f, KeysOf(f, client) - ahead))
        decreases ahead
      {
        var k :| k in ahead;
        assert k in mGeofenceIds && mGeofenceIds[k] == f.ids[k];
        if client == k.client {
          var hwId := mGeofenceIds[k];
          mGeofenceIds := mGeofenceIds - {k};
          removals := removals + [(hwId, k.id)];
          assert KeysOf(f, client) - (ahead - {k}) == KeysOf(f, client) - ahead + {k};
          OneMoreAsked(f, client, KeysOf(f, client) - ahead, k);
          asked := asked + [(hwId, k.id)];
        } else {
          assert KeysOf(f, client) - (ahead - {k}) == KeysOf(f, client) - ahead;
        }
        ahead := ahead - {k};
      }
      assert KeysOf(f, client) - {} == KeysOf(f, client);
      assert removals[|old(removals)|..] == asked;
    }

    /** The reply to such a removal. */
    method StopReply(hwId: int, success: bool, ghost f: Fences)
      requires Has(f)
      modifies this`mGeofences
      ensures Has(Step(f, StopDone(hwId, success)))
    {
      if success && hwId in mGeofences {
        mGeofences := mGeofences - {hwId};
      }
    }

    /** Each client with a callback and a share gets one call, in the order of the clients. */
    method GeofenceBreach(hwIds: seq<int>)
      modifies this`breaches
      ensures breaches == old(breaches) + Notices(Owners(mGeofences, hwIds), clientData)
    {
      ghost var owners := Owners(mGeofences, hwIds);
      for c := 0 to |clientData|
        invariant breaches == old(breaches) + Notices(owners, clientData[..c])
      {
        var (client, hasCallback) := clientData[c];
        assert clientData[..c + 1][..c] == clientData[..c];
        var clientIds := new int[|hwIds|];
        var index := CollectIds(hwIds, client, clientIds);
        if index > 0 && hasCallback {
          breaches := breaches + [Notice(client, clientIds[..index])];
        }
      }
      assert clientData[..|clientData|] == clientData;
    }

    method CollectIds(hwIds: seq<int>, client: int, clientIds: array<int>) returns (index: nat)
      requires clientIds.Length == |hwIds|
      modifies clientIds
      ensures index <= clientIds.Length && clientIds[..index] == Share(Owners(mGeofences, hwIds), client)
    {
      index := 0;
      for i := 0 to |hwIds|
        invariant index <= i
        invariant clientIds[..index] == Share(Owners(mGeofences, hwIds[..i]), client)
      {
        OwnersAppend(mGeofences, hwIds, i);
        if hwIds[i] in mGeofences {
          var key := mGeofences[hwIds[i]].key;
          ShareAppend(Owners(mGeofences, hwIds[..i]), key, client);
          if key.client == client {
            clientIds[index] := key.id;
            assert clientIds[..index + 1] == clientIds[..index] + [key.id];
            index := index + 1;
          }
        }
      }
      assert hwIds[..|hwIds|] == hwIds;
    }
  }

  function Notices(owners: seq<Key>, clients: seq<(int, bool)>): seq<Notice> {
    if clients == [] then []
    else
      var (client, hasCallback) := clients[|clients| - 1];
      var share := Share(owners, client);
      Notices(owners, clients[..|clients| - 1])
      + if share != [] && hasCallback then [Notice(client, share)] else []
  }

  /** The calls to the clients: exactly one for each listed client with a callback and a share. */
  lemma {:induction false} NoticesTell(owners: seq<Key>, clients: seq<(int, bool)>, client: int)
    requires forall i, j :: 0 <= i < j < |clients| ==> clients[i].0 != clients[j].0
    ensures forall n :: n in Notices(owners, clients) && n.client == client ==>
              n.ids == Share(owners, client) && n.ids != [] && (client, true) in clients
    ensures multiset(Notices(owners, clients))[Notice(client, Share(owners, client))] ==
              if (client, true) in clients && Share(owners, client) != [] then 1 else 0
  {
    if clients != [] {
      var front, last := clients[..|clients| - 1], clients[|clients| - 1];
      NoticesTell(owners, front, client);
      assert clients == front + [last];
      assert last.0 == client ==> (client, true) !in front;
    }
  }

  // ---------- From the hardware ids to the clients ----------

  /** The hardware id at position i is that of a stored geofence of the client. */
  predicate IsOf(geofences: map<int, Object>, hwIds: seq<int>, i: int, client: int)
    requires 0 <= i < |hwIds|
  {
    hwIds[i] in geofences && geofences[hwIds[i]].key.client == client
  }

  /** The positions whose ids a client is told. */
  ghost predicate Positions(geofences: map<int, Object>, hwIds: seq<int>, client: int, ids: seq<int>, at: seq<nat>) {
    && |at| == |ids|
    && (forall j, k :: 0 <= j < k < |at| ==> at[j] < at[k])
    && (forall j :: 0 <= j < |at| ==>
          && at[j] < |hwIds| && hwIds[at[j]] in geofences
          && geofences[hwIds[at[j]]].key == Key(client, ids[j]))
    && (forall i :: 0 <= i < |hwIds| && IsOf(geofences, hwIds, i, client) ==> i in at)
  }

  lemma {:induction false} SharePositions(geofences: map<int, Object>, hwIds: seq<int>, client: int)
    returns (at: seq<nat>)
    ensures Positions(geofences, hwIds, client, Share(Owners(geofences, hwIds), client), at)
    decreases |hwIds|
  {
    at := [];
    if hwIds != [] {
      var n := |hwIds| - 1;
      var front := hwIds[..n];
      at := SharePositions(geofences, front, client);
      forall i | 0 <= i < n && IsOf(geofences, hwIds, i, client) ensures i in at {
        assert IsOf(geofences, front, i, client);
      }
      if hwIds[n] in geofences {
        ShareAppend(Owners(geofences, front), geofences[hwIds[n]].key, client);
        if IsOf(geofences, hwIds, n, client) {
          var more := at + [n];
          assert forall i :: i in at ==> i in more;
          assert more[|at|] == n;
          at := more;
        }
      }
    }
  }

  /** A call to a client holds its own id of the geofence, for exactly the reported hardware ids of its
    * stored geofences, in the order of the report. */
  lemma BreachTells(geofences: map<int, Object>, hwIds: seq<int>, clients: seq<(int, bool)>, n: Notice)
    returns (at: seq<nat>)
    requires forall i, j :: 0 <= i < j < |clients| ==> clients[i].0 != clients[j].0
    requires n in Notices(Owners(geofences, hwIds), clients)
    ensures (n.client, true) in clients && n.ids != []
    ensures Positions(geofences, hwIds, n.client, n.ids, at)
  {
    NoticesTell(Owners(geofences, hwIds), clients, n.client);
    at := SharePositions(geofences, hwIds, n.client);
  }

  /** A client is called once if it has a callback and a reported geofence, and else not. */
  lemma BreachReaches(geofences: map<int, Object>, hwIds: seq<int>, clients: seq<(int, bool)>, client: int)
    requires forall i, j :: 0 <= i < j < |clients| ==> clients[i].0 != clients[j].0
    ensures var notices := Notices(Owners(geofences, hwIds), clients);
      && (forall i, j :: 0 <= i < j < |notices| && notices[i].client == client ==> notices[j].client != client)
      && ((exists n :: n in notices && n.client == client) <==>
            (client, true) in clients && exists i :: 0 <= i < |hwIds| && IsOf(geofences, hwIds, i, client))
  {
    var owners := Owners(geofences, hwIds);
    var notices, share := Notices(owners, clients), Share(owners, client);
    NoticesTell(owners, clients, client);
    var at := SharePositions(geofences, hwIds, client);
    if i :| 0 <= i < |hwIds| && IsOf(geofences, hwIds, i, client) {
      assert i in at && share != [];
    }
    if share != [] {
      assert IsOf(geofences, hwIds, at[0], client);
      assert (client, true) in clients ==> multiset(notices)[Notice(client, share)] == 1;
    }
    forall i, j | 0 <= i < j < |notices| && notices[i] == notices[j] ensures multiset(notices)[notices[i]] >= 2 {
      TwiceListed(notices, i, j);
    }
    assert forall x :: x in notices && x.client == client ==> x == Notice(client, share);
  }

  lemma TwiceListed(notices: seq<Notice>, i: nat, j: nat)
    requires i < j < |notices| && notices[i] == notices[j]
    ensures multiset(notices)[notices[i]] >= 2
  {
    assert notices == notices[..j] + [notices[j]] + notices[j + 1..];
    assert notices[..j][i] in multiset(notices[..j]);
  }

  lemma OneOwner(geofences: map<int, Object>, h: int)
    requires h in geofences
    ensures Owners(geofences, [h]) == [geofences[h].key]
  {
    assert [h][..|[h]| - 1] == [];
    assert Owners(geofences, []) == [];
  }

  lemma OneNotice(k: Key)
    ensures Notices([k], [(k.client, true)]) == [Notice(k.client, [k.id])]
  {
    var owners, clients := [k], [(k.client, true)];
    assert owners[..|owners| - 1] == [] && clients[..|clients| - 1] == [];
    assert Share([], k.client) == [] && Notices(owners, []) == [];
    assert Share(owners, k.client) == [k.id];
  }

  /** A breach of a geofence just saved tells its client the id the client gave it. */
  lemma SavedIsTold(f: Fences, k: Key, h: int, o: Options, i: Info)
    ensures Notices(Owners(Step(f, Save(k, h, o, i)).geofences, [h]), [(k.client, true)]) == [Notice(k.client, [k.id])]
  {
    OneOwner(Step(f, Save(k, h, o, i)).geofences, h);
    OneNotice(k);
  }
}
