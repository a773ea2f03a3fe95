/** The subscriptions of gps/core/SystemStatusOsObserver.cpp as values, and what its messages keep. */
module ObserverIndex {
  import opened SetMap

  type Client = int
  type Item = int
  type Value = int

  /** Who wants what, both ways round; whether the framework's subscription object is set, and what
    * that object is subscribed to and was asked for data of. */
  datatype Index = Index(
    itemsOf: map<Client, set<Item>>,
    clientsOf: map<Item, set<Client>>,
    attached: bool,
    framework: set<Item>,
    requests: seq<set<Item>>)

  const EMPTY := Index(map[], map[], false, {}, [])

  datatype Message =
    | Attach(already: set<Item>, asked: seq<set<Item>>)  // what the new subscription object holds
    | Subscribe(items: set<Item>, client: Client)
    | RequestData(items: set<Item>, client: Client)
    | UpdateSubscription(items: set<Item>, client: Client)
    | Unsubscribe(items: set<Item>, client: Client)
    | UnsubscribeAll(client: Client)

  function OnAttach(ix: Index, already: set<Item>, asked: seq<set<Item>>): Index {
    ix.(attached := true, framework := already + ix.clientsOf.Keys,
        requests := if ix.clientsOf == map[] then asked else asked + [ix.clientsOf.Keys])
  }

  function OnSubscribe(ix: Index, items: set<Item>, c: Client, request: bool): Index {
    var clientsOf := Added(ix.clientsOf, items, {c});
    Index(Added(ix.itemsOf, {c}, items), clientsOf, ix.attached,
          if ix.attached && !request then ix.framework + (clientsOf.Keys - ix.clientsOf.Keys)
          else ix.framework,
          if ix.attached && request then ix.requests + [clientsOf.Keys - ix.clientsOf.Keys]
          else ix.requests)
  }

  /** The client's entries of the items it already had are trimmed, as the source does; the items it
    * no longer wants keep it. */
  function OnUpdate(ix: Index, items: set<Item>, c: Client): Index {
    var had := ValSet(ix.itemsOf, c);
    var trimmed := Trimmed(ix.clientsOf, had * items, {c});
    var clientsOf := Added(trimmed, items - had, {c});
    Index(ix.itemsOf[c := items], clientsOf, ix.attached,
          if ix.attached
          then ix.framework + (clientsOf.Keys - trimmed.Keys) - GoneKeys(ix.clientsOf, had * items, {c})
          else ix.framework,
          ix.requests)
  }

  function Drop(ix: Index, unused: set<Item>, c: Client): Index {
    ix.(clientsOf := Trimmed(ix.clientsOf, unused, {c}),
        framework := if ix.attached then ix.framework - GoneKeys(ix.clientsOf, unused, {c}) else ix.framework)
  }

  function OnUnsubscribe(ix: Index, items: set<Item>, c: Client): Index {
    Drop(ix.(itemsOf := Trimmed(ix.itemsOf, {c}, items)), GoneVals(ix.itemsOf, {c}, items), c)
  }

  function OnUnsubscribeAll(ix: Index, c: Client): Index {
    if ValSet(ix.itemsOf, c) == {} then ix
    else Drop(ix.(itemsOf := ix.itemsOf - {c}), ValSet(ix.itemsOf, c), c)
  }

  /** Calls with an empty item set are dropped before a message is made. */
  function Handle(ix: Index, msg: Message): Index {
    match msg
    case Attach(already, asked) => OnAttach(ix, already, asked)
    case Subscribe(items, c) => if items == {} then ix else OnSubscribe(ix, items, c, false)
    case RequestData(items, c) => if items == {} then ix else OnSubscribe(ix, items, c, true)
    case UpdateSubscription(items, c) => if items == {} then ix else OnUpdate(ix, items, c)
    case Unsubscribe(items, c) => if items == {} then ix else OnUnsubscribe(ix, items, c)
    case UnsubscribeAll(c) => OnUnsubscribeAll(ix, c)
  }

  function HandleAll(ix: Index, msgs: seq<Message>): Index
    decreases |msgs|
  {
    if msgs == [] then ix else HandleAll(Handle(ix, msgs[0]), msgs[1..])
  }

  // ---------- The two maps are inverse relations ----------

  ghost predicate Inverse(ix: Index) {
    && (forall c, d :: d in ValSet(ix.itemsOf, c) <==> c in ValSet(ix.clientsOf, d))
    && (forall c :: c in ix.itemsOf ==> ix.itemsOf[c] != {})
    && (forall d :: d in ix.clientsOf ==> ix.clientsOf[d] != {})
  }

  /** An update is harmless only for a client without any items. */
  predicate Harmless(ix: Index, msg: Message) {
    msg.UpdateSubscription? && msg.items != {} ==> ValSet(ix.itemsOf, msg.client) == {}
  }

  lemma UpdateRelates(ix: Index, items: set<Item>, c: Client, d: Item)
    requires Inverse(ix)
    ensures c in ValSet(OnUpdate(ix, items, c).clientsOf, d) <==>
            (d in ValSet(ix.itemsOf, c)) != (d in items)
    ensures forall e :: e != c ==>
              (e in ValSet(OnUpdate(ix, items, c).clientsOf, d) <==> e in ValSet(ix.clientsOf, d))
  {
    var had := ValSet(ix.itemsOf, c);
    var trimmed := Trimmed(ix.clientsOf, had * items, {c});
    assert d in had <==> c in ValSet(ix.clientsOf, d);
    assert d in ix.clientsOf && d !in trimmed ==> ix.clientsOf[d] <= {c};
    assert d in had * items ==> c !in ValSet(trimmed, d);
  }

  lemma UpdateNoEmpty(ix: Index, items: set<Item>, c: Client)
    requires Inverse(ix) && items != {}
    ensures forall d :: d in OnUpdate(ix, items, c).clientsOf ==> OnUpdate(ix, items, c).clientsOf[d] != {}
    ensures forall e :: e in OnUpdate(ix, items, c).itemsOf ==> OnUpdate(ix, items, c).itemsOf[e] != {}
  {
    var had := ValSet(ix.itemsOf, c);
    var trimmed := Trimmed(ix.clientsOf, had * items, {c});
    var clientsOf := Added(trimmed, items - had, {c});
    forall d | d in trimmed ensures trimmed[d] != {} {
      EmptyDifference(ix.clientsOf[d], {c});
    }
    forall d | d in clientsOf ensures clientsOf[d] != {} {
      if d in items - had { assert c in clientsOf[d]; }
    }
  }

  /** updateSubscription leaves inverse maps if and only if the client had no items before. */
  lemma UpdateInverseIff(ix: Index, items: set<Item>, c: Client)
    requires Inverse(ix) && items != {}
    ensures Inverse(OnUpdate(ix, items, c)) <==> ValSet(ix.itemsOf, c) == {}
  {
    var had, after := ValSet(ix.itemsOf, c), OnUpdate(ix, items, c);
    if had != {} {
      var d := Pick(had);
      UpdateRelates(ix, items, c, d);
      assert d in ValSet(after.itemsOf, c) <==> d in items;
    } else {
      UpdateNoEmpty(ix, items, c);
      forall e, d ensures d in ValSet(after.itemsOf, e) <==> e in ValSet(after.clientsOf, d) {
        UpdateRelates(ix, items, c, d);
        assert d in ValSet(ix.itemsOf, e) <==> e in ValSet(ix.clientsOf, d);
      }
    }
  }

  /** The example in gps/core/observer/IDataItemSubscription.h: after {1,2,3} then {2,3,4,5} the
    * client should be listed for 2 to 5; it is listed for 1, 4 and 5. */
  lemma DocumentedUpdateFails(c: Client)
    ensures var ix := HandleAll(EMPTY, [UpdateSubscription({1, 2, 3}, c), UpdateSubscription({2, 3, 4, 5}, c)]);
      && ValSet(ix.itemsOf, c) == {2, 3, 4, 5}
      && ix.clientsOf.Keys == {1, 4, 5}
      && !Inverse(ix)
  {
    var first, second := UpdateSubscription({1, 2, 3}, c), UpdateSubscription({2, 3, 4, 5}, c);
    var ix1 := Handle(EMPTY, first);
    var ix2 := Handle(ix1, second);
    assert HandleAll(EMPTY, [first, second]) == HandleAll(ix1, [second]) by {
      assert [first, second][1..] == [second];
    }
    assert HandleAll(ix1, [second]) == ix2;
    UpdateInverseIff(EMPTY, {1, 2, 3}, c);
    assert ValSet(ix1.itemsOf, c) == {1, 2, 3};
    UpdateInverseIff(ix1, {2, 3, 4, 5}, c);
    forall d ensures d in ix2.clientsOf <==> d in {1, 4, 5} {
      UpdateRelates(EMPTY, {1, 2, 3}, c, d);
      UpdateRelates(ix1, {2, 3, 4, 5}, c, d);
      UpdateNoEmpty(ix1, {2, 3, 4, 5}, c);
      OnlyClient(ix1, ix2, c, d);
    }
  }

  lemma OnlyClient(ix1: Index, ix2: Index, c: Client, d: Item)
    requires ix1 == OnUpdate(EMPTY, {1, 2, 3}, c) && ix2 == OnUpdate(ix1, {2, 3, 4, 5}, c)
    requires Inverse(ix1)
    requires d in ix2.clientsOf ==> ix2.clientsOf[d] != {}
    ensures d in ix2.clientsOf <==> c in ValSet(ix2.clientsOf, d)
  {
    UpdateRelates(EMPTY, {1, 2, 3}, c, d);
    UpdateRelates(ix1, {2, 3, 4, 5}, c, d);
    if d in ix2.clientsOf {
      var e :| e in ix2.clientsOf[d];
      assert e == c || e in ValSet(ix1.clientsOf, d);
      assert e == c || e in ValSet(EMPTY.clientsOf, d);
    }
  }

  lemma SubscribeKeepsInverse(ix: Index, items: set<Item>, c: Client, request: bool)
    requires Inverse(ix) && items != {}
    ensures Inverse(OnSubscribe(ix, items, c, request))
  {
    var after := OnSubscribe(ix, items, c, request);
    forall e, d ensures d in ValSet(after.itemsOf, e) <==> e in ValSet(after.clientsOf, d) {
      assert d in ValSet(ix.itemsOf, e) <==> e in ValSet(ix.clientsOf, d);
    }
    forall d | d in after.clientsOf ensures after.clientsOf[d] != {} {
      if d in items { assert c in after.clientsOf[d]; }
    }
  }

  lemma DropKeepsInverse(ix: Index, itemsOf: map<Client, set<Item>>, unused: set<Item>, c: Client)
    requires Inverse(ix)
    requires forall d :: d in ValSet(itemsOf, c) <==> d in ValSet(ix.itemsOf, c) && d !in unused
    requires forall e :: e != c ==> ValSet(itemsOf, e) == ValSet(ix.itemsOf, e)
    requires forall e :: e in itemsOf ==> itemsOf[e] != {}
    ensures Inverse(Drop(ix.(itemsOf := itemsOf), unused, c))
  {
    var after := Drop(ix.(itemsOf := itemsOf), unused, c);
    forall e, d ensures d in ValSet(after.itemsOf, e) <==> e in ValSet(after.clientsOf, d) {
      assert d in ValSet(ix.itemsOf, e) <==> e in ValSet(ix.clientsOf, d);
      assert d in ix.clientsOf && d !in after.clientsOf ==> ix.clientsOf[d] <= {c};
    }
    forall d | d in after.clientsOf ensures after.clientsOf[d] != {} {
      EmptyDifference(ix.clientsOf[d], {c});
    }
  }

  lemma UnsubscribeKeepsInverse(ix: Index, items: set<Item>, c: Client)
    requires Inverse(ix)
    ensures Inverse(OnUnsubscribe(ix, items, c))
  {
    var itemsOf, unused := Trimmed(ix.itemsOf, {c}, items), GoneVals(ix.itemsOf, {c}, items);
    assert unused == ValSet(ix.itemsOf, c) * items;
    if c in ix.itemsOf { EmptyDifference(ix.itemsOf[c], items); }
    DropKeepsInverse(ix, itemsOf, unused, c);
  }

  /** Every message keeps the maps inverse exactly when it is not a harmful update. */
  lemma HandleInverseIff(ix: Index, msg: Message)
    requires Inverse(ix)
    ensures Inverse(Handle(ix, msg)) <==> Harmless(ix, msg)
  {
    match msg
    case Attach(_, _) =>
    case Subscribe(items, c) => if items != {} { SubscribeKeepsInverse(ix, items, c, false); }
    case RequestData(items, c) => if items != {} { SubscribeKeepsInverse(ix, items, c, true); }
    case UpdateSubscription(items, c) => if items != {} { UpdateInverseIff(ix, items, c); }
    case Unsubscribe(items, c) => UnsubscribeKeepsInverse(ix, items, c);
    case UnsubscribeAll(c) =>
      if ValSet(ix.itemsOf, c) != {} {
        DropKeepsInverse(ix, ix.itemsOf - {c}, ValSet(ix.itemsOf, c), c);
      }
  }

  predicate AllHarmless(ix: Index, msgs: seq<Message>)
    decreases |msgs|
  {
    msgs == [] || (Harmless(ix, msgs[0]) && AllHarmless(Handle(ix, msgs[0]), msgs[1..]))
  }

  lemma {:induction false} RunInverse(ix: Index, msgs: seq<Message>)
    requires Inverse(ix) && AllHarmless(ix, msgs)
    ensures Inverse(HandleAll(ix, msgs))
    decreases |msgs|
  {
    if msgs != [] {
      HandleInverseIff(ix, msgs[0]);
      RunInverse(Handle(ix, msgs[0]), msgs[1..]);
    }
  }

  // ---------- What each client has ----------

  /** A client's items after a message, as the interface promises them. */
  function Intended(had: set<Item>, msg: Message, c: Client): set<Item> {
    match msg
    case Attach(_, _) => had
    case Subscribe(items, e) => if e == c then had + items else had
    case RequestData(items, e) => if e == c then had + items else had
    case UpdateSubscription(items, e) => if e == c && items != {} then items else had
    case Unsubscribe(items, e) => if e == c then had - items else had
    case UnsubscribeAll(e) => if e == c then {} else had
  }

  function IntendedAll(had: set<Item>, msgs: seq<Message>, c: Client): set<Item>
    decreases |msgs|
  {
    if msgs == [] then had else IntendedAll(Intended(had, msgs[0], c), msgs[1..], c)
  }

  lemma HandleIntended(ix: Index, msg: Message, c: Client)
    ensures ValSet(Handle(ix, msg).itemsOf, c) == Intended(ValSet(ix.itemsOf, c), msg, c)
  {
    if msg.Unsubscribe? && msg.client in ix.itemsOf {
      EmptyDifference(ix.itemsOf[msg.client], msg.items);
    }
  }

  /** Over any run each client's own entry is what the interface promises. */
  lemma {:induction false} RunIntended(ix: Index, msgs: seq<Message>, c: Client)
    ensures ValSet(HandleAll(ix, msgs).itemsOf, c) == IntendedAll(ValSet(ix.itemsOf, c), msgs, c)
    decreases |msgs|
  {
    if msgs != [] {
      HandleIntended(ix, msgs[0], c);
      RunIntended(Handle(ix, msgs[0]), msgs[1..], c);
    }
  }

  // ---------- The framework follows the keys ----------

  predicate Tracks(ix: Index) {
    ix.attached ==> ix.framework == ix.clientsOf.Keys
  }

  /** A data request for an item nobody had does not reach the framework as a subscription, and a new
    * subscription object keeps what it was subscribed to. */
  predicate Unseen(ix: Index, msg: Message) {
    || (msg.RequestData? && ix.attached && !(msg.items <= ix.clientsOf.Keys))
    || (msg.Attach? && !(msg.already <= ix.clientsOf.Keys))
  }

  lemma TrimmedKeys<K, V>(m: map<K, set<V>>, keys: set<K>, vals: set<V>)
    ensures Trimmed(m, keys, vals).Keys == m.Keys - GoneKeys(m, keys, vals)
  {
  }

  lemma AddedKeys<K, V>(m: map<K, set<V>>, keys: set<K>, vals: set<V>)
    ensures Added(m, keys, vals).Keys == m.Keys + (if vals == {} then {} else keys)
  {
  }

  lemma HandleTracksIff(ix: Index, msg: Message)
    requires Tracks(ix)
    ensures Tracks(Handle(ix, msg)) <==> !Unseen(ix, msg)
  {
    match msg
    case Attach(_, _) =>
    case Subscribe(items, c) => AddedKeys(ix.clientsOf, items, {c});
    case RequestData(items, c) => AddedKeys(ix.clientsOf, items, {c});
    case UpdateSubscription(items, c) =>
      var had := ValSet(ix.itemsOf, c);
      var trimmed := Trimmed(ix.clientsOf, had * items, {c});
      TrimmedKeys(ix.clientsOf, had * items, {c});
      AddedKeys(trimmed, items - had, {c});
    case Unsubscribe(items, c) =>
      TrimmedKeys(ix.clientsOf, GoneVals(ix.itemsOf, {c}, items), {c});
    case UnsubscribeAll(c) =>
      TrimmedKeys(ix.clientsOf, ValSet(ix.itemsOf, c), {c});
  }

  lemma {:induction false} RunTracks(ix: Index, msgs: seq<Message>)
    requires Tracks(ix)
    requires forall msg :: msg in msgs ==> !msg.RequestData? && (msg.Attach? ==> msg.already == {})
    ensures Tracks(HandleAll(ix, msgs))
    decreases |msgs|
  {
    if msgs != [] {
      HandleTracksIff(ix, msgs[0]);
      RunTracks(Handle(ix, msgs[0]), msgs[1..]);
    }
  }

  /** Nobody but this client wants the item. */
  predicate OnlyFor(ix: Index, d: Item, c: Client) {
    d in ix.clientsOf && ix.clientsOf[d] <= {c}
  }

  /** The framework's subscription, item by item: exactly the items that are new as keys are added,
    * exactly those that lose their last client are taken out. */
  lemma HandleFramework(ix: Index, msg: Message, d: Item)
    requires ix.attached || msg.Attach?
    ensures d in Handle(ix, msg).framework <==>
            match msg
            case Attach(already, _) => d in already || d in ix.clientsOf
            case Subscribe(items, _) => d in ix.framework || (d in items && d !in ix.clientsOf)
            case RequestData(_, _) => d in ix.framework
            case UpdateSubscription(items, c) =>
              var had := d in ValSet(ix.itemsOf, c);
              || (d in ix.framework && !(had && d in items && OnlyFor(ix, d, c)))
              || (d in items && !had && d !in ix.clientsOf)
            case Unsubscribe(items, c) =>
              d in ix.framework && !(d in ValSet(ix.itemsOf, c) && d in items && OnlyFor(ix, d, c))
            case UnsubscribeAll(c) =>
              d in ix.framework && !(d in ValSet(ix.itemsOf, c) && OnlyFor(ix, d, c))
  {
    match msg
    case Attach(_, _) =>
    case Subscribe(items, c) => AddedKeys(ix.clientsOf, items, {c});
    case RequestData(_, _) =>
    case UpdateSubscription(items, c) =>
      var had := ValSet(ix.itemsOf, c);
      TrimmedKeys(ix.clientsOf, had * items, {c});
      AddedKeys(Trimmed(ix.clientsOf, had * items, {c}), items - had, {c});
    case Unsubscribe(items, c) =>
      assert d in GoneVals(ix.itemsOf, {c}, items) <==> d in items && d in ValSet(ix.itemsOf, c);
    case UnsubscribeAll(_) =>
  }

  lemma DetachedFramework(ix: Index, msg: Message)
    requires !ix.attached && !msg.Attach?
    ensures var after := Handle(ix, msg);
            !after.attached && after.framework == ix.framework && after.requests == ix.requests
  {
  }

  // ---------- What the framework is asked for ----------

  /** An attached data request for items asks the framework for those that nobody had; a new object is
    * asked for all item keys, if there are any; nothing else asks for data. */
  lemma HandleRequests(ix: Index, msg: Message)
    ensures Handle(ix, msg).requests ==
            match msg
            case RequestData(items, _) =>
              if ix.attached && items != {} then ix.requests + [items - ix.clientsOf.Keys] else ix.requests
            case Attach(_, asked) => if ix.clientsOf.Keys == {} then asked else asked + [ix.clientsOf.Keys]
            case _ => ix.requests
  {
    if msg.RequestData? {
      AddedKeys(ix.clientsOf, msg.items, {msg.client});
      assert ix.clientsOf.Keys + msg.items - ix.clientsOf.Keys == msg.items - ix.clientsOf.Keys;
    }
    assert ix.clientsOf.Keys == {} <==> ix.clientsOf == map[];
  }

  /** The framework knows of the item: subscribed, or asked for. */
  predicate Known(ix: Index, d: Item) {
    d in ix.framework || exists r :: r in ix.requests && d in r
  }

  predicate AllKnown(ix: Index) {
    ix.attached ==> forall d :: d in ix.clientsOf ==> Known(ix, d)
  }

  lemma HandleAllKnown(ix: Index, msg: Message)
    requires AllKnown(ix)
    ensures AllKnown(Handle(ix, msg))
  {
    var after := Handle(ix, msg);
    HandleRequests(ix, msg);
    if after.attached {
      forall d | d in after.clientsOf ensures Known(after, d) {
        assert forall r :: r in ix.requests ==> msg.Attach? || r in after.requests;
        match msg
        case RequestData(items, c) =>
          if d !in ix.clientsOf { assert (ix.requests + [items - ix.clientsOf.Keys])[|ix.requests|] in after.requests; }
        case _ =>
      }
    }
  }

  /** Over any run, data requests, harmful updates and changes of the object included: every item that
    * somebody wants is subscribed with the framework or was asked for. */
  lemma {:induction false} RunAllKnown(ix: Index, msgs: seq<Message>)
    requires AllKnown(ix)
    ensures AllKnown(HandleAll(ix, msgs))
    decreases |msgs|
  {
    if msgs != [] {
      HandleAllKnown(ix, msgs[0]);
      RunAllKnown(Handle(ix, msgs[0]), msgs[1..]);
    }
  }

  // ---------- Delivery ----------

  /** A data item report; `accepted` is the answer of SystemStatus. */
  datatype Report = Report(item: Item, value: Value, accepted: bool)

  datatype Delivery = Delivery(client: Client, values: map<Item, Value>)

  function Cached(cache: map<Item, Value>, batch: seq<Report>): map<Item, Value> {
    if batch == [] then cache
    else
      var last := batch[|batch| - 1];
      var before := Cached(cache, batch[..|batch| - 1]);
      if last.accepted then before[last.item := last.value] else before
  }

  function AcceptedItems(batch: seq<Report>): set<Item> {
    set r | r in batch && r.accepted :: r.item
  }

  function Select(cache: map<Item, Value>, items: set<Item>): map<Item, Value> {
    map d | d in items && d in cache :: cache[d]
  }

  /** The call that hands a client the cached ones among these items, if there are any. */
  function Reply(cache: map<Item, Value>, items: set<Item>, c: Client): seq<Delivery> {
    var values := Select(cache, items);
    if values == map[] then [] else [Delivery(c, values)]
  }

  /** What notify sends: the client is found by the items, the items by the client. */
  ghost predicate Sent(ix: Index, cache: map<Item, Value>, items: set<Item>, out: seq<Delivery>) {
    && (forall i, j :: 0 <= i < j < |out| ==> out[i].client != out[j].client)
    && (forall x :: x in out ==>
          && (exists d :: d in items && x.client in ValSet(ix.clientsOf, d))
          && x.values == Select(cache, ValSet(ix.itemsOf, x.client) * items)
          && x.values != map[])
    && (forall c, d :: d in items && c in ValSet(ix.clientsOf, d) ==>
          || Select(cache, ValSet(ix.itemsOf, c) * items) == map[]
          || exists x :: x in out && x.client == c)
  }

  /** What was sent when these clients had their turn. */
  ghost predicate SentTo(
    ix: Index, cache: map<Item, Value>, items: set<Item>, clients: set<Client>, out: seq<Delivery>)
  {
    && (forall i, j :: 0 <= i < j < |out| ==> out[i].client != out[j].client)
    && (forall x :: x in out ==>
          && x.client in clients
          && x.values == Select(cache, ValSet(ix.itemsOf, x.client) * items)
          && x.values != map[])
    && (forall c :: c in clients ==>
          || Select(cache, ValSet(ix.itemsOf, c) * items) == map[]
          || exists x :: x in out && x.client == c)
  }

  lemma SentToOne(
    ix: Index, cache: map<Item, Value>, items: set<Item>, clients: set<Client>, c: Client, out: seq<Delivery>)
    requires SentTo(ix, cache, items, clients, out) && c !in clients
    ensures SentTo(ix, cache, items, clients + {c}, out + Reply(cache, ValSet(ix.itemsOf, c) * items, c))
  {
    var values := Select(cache, ValSet(ix.itemsOf, c) * items);
    var more := out + Reply(cache, ValSet(ix.itemsOf, c) * items, c);
    assert forall x :: x in out ==> x in more;
    if values != map[] {
      assert more[|out|] == Delivery(c, values);
      assert forall i :: 0 <= i < |out| ==> out[i] in out;
    }
  }

  lemma {:induction false} AcceptedAreCached(cache: map<Item, Value>, batch: seq<Report>)
    ensures AcceptedItems(batch) <= Cached(cache, batch).Keys
  {
    if batch != [] {
      var front := batch[..|batch| - 1];
      AcceptedAreCached(cache, front);
      forall d | d in AcceptedItems(batch) ensures d in Cached(cache, batch) {
        var r :| r in batch && r.accepted && r.item == d;
        if r != batch[|batch| - 1] { assert r in front; }
      }
    }
  }

  /** After a batch the cache holds of each item the value accepted last. */
  lemma {:induction false} CachedIsLatest(cache: map<Item, Value>, batch: seq<Report>, i: nat)
    requires i < |batch| && batch[i].accepted
    requires forall j :: i < j < |batch| ==> batch[j].item != batch[i].item || !batch[j].accepted
    ensures batch[i].item in Cached(cache, batch) && Cached(cache, batch)[batch[i].item] == batch[i].value
  {
    if i < |batch| - 1 { CachedIsLatest(cache, batch[..|batch| - 1], i); }
  }

  /** An item of which nothing was accepted is as it was. */
  lemma {:induction false} CachedElseKept(cache: map<Item, Value>, batch: seq<Report>, d: Item)
    requires d !in AcceptedItems(batch)
    ensures d in Cached(cache, batch) <==> d in cache
    ensures d in cache ==> Cached(cache, batch)[d] == cache[d]
  {
    if batch != [] {
      var front := batch[..|batch| - 1];
      assert forall r :: r in front ==> r in batch;
      assert batch[|batch| - 1] in batch;
      CachedElseKept(cache, front, d);
    }
  }

  /** One batch: every subscriber of an accepted item gets, in one call, exactly its accepted items
    * with the values after the whole batch; nobody else gets a call. */
  lemma NotifyIsExact(ix: Index, cache: map<Item, Value>, batch: seq<Report>, out: seq<Delivery>, c: Client)
    requires Inverse(ix)
    requires Sent(ix, Cached(cache, batch), AcceptedItems(batch), out)
    ensures var wanted := ValSet(ix.itemsOf, c) * AcceptedItems(batch);
      && ((exists x :: x in out && x.client == c) <==> wanted != {})
      && (forall x :: x in out && x.client == c ==>
            && x.values.Keys == wanted
            && forall d :: d in wanted ==> x.values[d] == Cached(cache, batch)[d])
      && (forall i, j :: 0 <= i < |out| && 0 <= j < |out| && out[i].client == c && out[j].client == c ==> i == j)
  {
    AcceptedAreCached(cache, batch);
    var items, after := AcceptedItems(batch), Cached(cache, batch);
    var wanted := ValSet(ix.itemsOf, c) * items;
    assert Select(after, wanted).Keys == wanted;
    if wanted != {} {
      var d :| d in wanted;
      assert c in ValSet(ix.clientsOf, d);
      assert d in Select(after, wanted);
    }
  }

  /** From the start, over any run without harmful updates: one batch reaches exactly the clients
    * that should have one of its items, with those items. */
  lemma RunThenNotify(msgs: seq<Message>, cache: map<Item, Value>, batch: seq<Report>, out: seq<Delivery>, c: Client)
    requires AllHarmless(EMPTY, msgs)
    requires Sent(HandleAll(EMPTY, msgs), Cached(cache, batch), AcceptedItems(batch), out)
    ensures var wanted := IntendedAll({}, msgs, c) * AcceptedItems(batch);
      && ((exists x :: x in out && x.client == c) <==> wanted != {})
      && (forall x :: x in out && x.client == c ==> x.values.Keys == wanted)
  {
    RunInverse(EMPTY, msgs);
    RunIntended(EMPTY, msgs, c);
    NotifyIsExact(HandleAll(EMPTY, msgs), cache, batch, out, c);
  }
}
