/** The message handlers of gps/core/SystemStatusOsObserver.cpp, proved against ObserverIndex. */
module OsObserver {
  import opened SetMap
  import opened ObserverIndex

  /** The subscription object of the framework, as its interface documents subscribe/unsubscribe. */
  class DataItemSubscription {
    var subscribed: set<Item>
    var requests: seq<set<Item>>

    constructor ()
      ensures subscribed == {} && requests == []
    {
      subscribed, requests := {}, [];
    }

    method Subscribe(items: set<Item>)
      modifies this`subscribed
      ensures subscribed == old(subscribed) + items
    {
      subscribed := subscribed + items;
    }

    method Unsubscribe(items: set<Item>)
      modifies this`subscribed
      ensures subscribed == old(subscribed) - items
    {
      subscribed := subscribed - items;
    }

    method RequestData(items: set<Item>)
      modifies this`requests
      ensures requests == old(requests) + [items]
    {
      requests := requests + [items];
    }
  }

  class SystemStatusOsObserver {
    var clientToDataItems: LocUnorderedSetMap<Client, Item>
    var dataItemToClients: LocUnorderedSetMap<Item, Client>
    var cache: map<Item, Value>
    var subscriptionObj: DataItemSubscription?
    var sent: seq<Delivery>  // the notify calls made to clients

    ghost predicate Valid()
      reads this
    {
      clientToDataItems as object != dataItemToClients
    }

    ghost function Value(): Index
      reads this, clientToDataItems, dataItemToClients, subscriptionObj
    {
      Index(clientToDataItems.m, dataItemToClients.m, subscriptionObj != null,
            if subscriptionObj == null then {} else subscriptionObj.subscribed,
            if subscriptionObj == null then [] else subscriptionObj.requests)
    }

    constructor ()
      ensures Valid() && Value() == EMPTY && cache == map[] && sent == []
      ensures fresh(clientToDataItems) && fresh(dataItemToClients)
    {
      clientToDataItems := new LocUnorderedSetMap();
      dataItemToClients := new LocUnorderedSetMap();
      cache, subscriptionObj, sent := map[], null, [];
    }

    method SetSubscriptionObj(obj: DataItemSubscription)
      requires Valid()
      modifies this`subscriptionObj, obj
      ensures Valid() && Value() == Handle(old(Value()), Attach(old(obj.subscribed), old(obj.requests)))
    {
      subscriptionObj := obj;
      if dataItemToClients.m != map[] {
        var dis := dataItemToClients.GetKeys();
        obj.Subscribe(dis);
        obj.RequestData(dis);
      }
    }

    method Subscribe(items: set<Item>, client: Client, toRequestData: bool)
      requires Valid()
      modifies this`sent, clientToDataItems, dataItemToClients, subscriptionObj
      ensures Valid() && cache == old(cache)
      ensures Value() == Handle(old(Value()),
                if toRequestData then ObserverIndex.RequestData(items, client)
                else ObserverIndex.Subscribe(items, client))
      ensures sent == old(sent) + Reply(cache, items, client)
    {
      if items == {} {
        return;
      }
      var toSubscribe := dataItemToClients.AddToAll(items, {client});
      var isNew := clientToDataItems.Add(client, items);
      SendCachedDataItems(items, client);
      if subscriptionObj != null {
        if toRequestData {
          subscriptionObj.RequestData(toSubscribe);
        } else if toSubscribe != {} {
          subscriptionObj.Subscribe(toSubscribe);
        }
      }
    }

    method UpdateSubscription(items: set<Item>, client: Client)
      requires Valid()
      modifies this`sent, clientToDataItems, dataItemToClients, subscriptionObj
      ensures Valid() && cache == old(cache)
      ensures Value() == Handle(old(Value()), ObserverIndex.UpdateSubscription(items, client))
      ensures sent == old(sent) + Reply(cache, items - ValSet(old(clientToDataItems.m), client), client)
    {
      if items == {} {
        return;
      }
      var returned, itemSet := clientToDataItems.Update(client, items);
      var toUnsubscribe, goneVals := dataItemToClients.TrimOrRemove(returned, {client});
      var toSubscribe := dataItemToClients.AddToAll(itemSet, {client});
      SendCachedDataItems(itemSet, client);
      if subscriptionObj != null {
        if toSubscribe != {} {
          subscriptionObj.Subscribe(toSubscribe);
        }
        if toUnsubscribe != {} {
          subscriptionObj.Unsubscribe(toUnsubscribe);
        }
      }
    }

    method Unsubscribe(items: set<Item>, client: Client)
      requires Valid()
      modifies clientToDataItems, dataItemToClients, subscriptionObj
      ensures Valid()
      ensures Value() == Handle(old(Value()), ObserverIndex.Unsubscribe(items, client))
    {
      if items == {} {
        return;
      }
      var clientToRemove, unused := clientToDataItems.TrimOrRemove({client}, items);
      var toUnsubscribe, goneVals := dataItemToClients.TrimOrRemove(unused, {client});
      if subscriptionObj != null && toUnsubscribe != {} {
        subscriptionObj.Unsubscribe(toUnsubscribe);
      }
    }

    method UnsubscribeAll(client: Client)
      requires Valid()
      modifies clientToDataItems, dataItemToClients, subscriptionObj
      ensures Valid()
      ensures Value() == Handle(old(Value()), ObserverIndex.UnsubscribeAll(client))
    {
      var diByClient := ValSet(clientToDataItems.m, client);
      if diByClient != {} {
        var removed := clientToDataItems.Remove(client);
        var toUnsubscribe, goneVals := dataItemToClients.TrimOrRemove(diByClient, {client});
        if toUnsubscribe != {} && subscriptionObj != null {
          subscriptionObj.Unsubscribe(toUnsubscribe);
        }
      }
    }

    /** One notify call with the cached items among these, or none. */
    method SendCachedDataItems(items: set<Item>, to: Client)
      modifies this`sent
      ensures sent == old(sent) + Reply(cache, items, to)
    {
      var values := map[];
      var rest := items;
      while rest != {}
        invariant rest <= items
        invariant values == Select(cache, items - rest) && sent == old(sent)
        decreases rest
      {
        ghost var first := Pick(rest);
        var d :| d in rest;
        if d in cache {
          values := values[d := cache[d]];
        }
        rest := rest - {d};
      }
      assert items - rest == items && values == Select(cache, items);
      if values != map[] {
        sent := sent + [Delivery(to, values)];
      }
    }

    method UpdateCache(r: Report) returns (updated: bool)
      modifies this`cache
      ensures updated == r.accepted
      ensures cache == if r.accepted then old(cache)[r.item := r.value] else old(cache)
    {
      updated := false;
      if r.accepted {
        updated := true;
        cache := cache[r.item := r.value];
      }
    }

    method UpdateAll(batch: seq<Report>) returns (toBeSent: set<Item>)
      modifies this`cache
      ensures cache == Cached(old(cache), batch) && toBeSent == AcceptedItems(batch)
    {
      toBeSent := {};
      for i := 0 to |batch|
        invariant cache == Cached(old(cache), batch[..i])
        invariant toBeSent == AcceptedItems(batch[..i])
      {
        assert batch[..i + 1] == batch[..i] + [batch[i]];
        var updated := UpdateCache(batch[i]);
        if updated {
          toBeSent := toBeSent + {batch[i].item};
        }
      }
      assert batch[..|batch|] == batch;
    }

    method ClientsOf(items: set<Item>) returns (clientSet: set<Client>)
      ensures forall c :: c in clientSet <==> exists d :: d in items && c in ValSet(dataItemToClients.m, d)
    {
      clientSet := {};
      var rest := items;
      while rest != {}
        invariant rest <= items
        invariant forall c :: c in clientSet <==>
                    exists d :: d in items - rest && c in ValSet(dataItemToClients.m, d)
        decreases rest
      {
        ghost var first := Pick(rest);
        var d :| d in rest;
        clientSet := clientSet + ValSet(dataItemToClients.m, d);
        rest := rest - {d};
      }
    }

    method Notify(batch: seq<Report>)
      requires Valid()
      modifies this`cache, this`sent
      ensures Valid() && Value() == old(Value())
      ensures cache == Cached(old(cache), batch)
      ensures |old(sent)| <= |sent| && sent[..|old(sent)|] == old(sent)
      ensures Sent(Value(), cache, AcceptedItems(batch), sent[|old(sent)|..])
    {
      var toBeSent := UpdateAll(batch);
      var clientSet := ClientsOf(toBeSent);
      ghost var ix, said := Value(), sent;
      var rest := clientSet;
      ghost var out: seq<Delivery> := [];
      while rest != {}
        invariant rest <= clientSet
        invariant cache == Cached(old(cache), batch)
        invariant sent == said + out && SentTo(ix, cache, toBeSent, clientSet - rest, out)
        decreases rest
      {
        ghost var first := Pick(rest);
        var c :| c in rest;
        var forThisClient := ValSet(clientToDataItems.m, c) * toBeSent;
        SentToOne(ix, cache, toBeSent, clientSet - rest, c, out);
        SendCachedDataItems(forThisClient, c);
        out := out + Reply(cache, forThisClient, c);
        assert clientSet - (rest - {c}) == clientSet - rest + {c};
        rest := rest - {c};
      }
      assert clientSet - rest == clientSet;
      assert sent[|old(sent)|..] == out;
    }
  }
}
