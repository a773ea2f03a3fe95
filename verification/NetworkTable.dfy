/** The table of network handles that SystemStatusNetworkInfo keeps (gps/core/SystemStatus.h). */
module NetworkTable {

  const UNKNOWN_HANDLE := 0xFFFF_FFFF_FFFF_FFFF
  const TYPE_MOBILE := 0
  const TYPE_UNKNOWN := 10
  const MAX_HANDLES := 10

  datatype Entry = Entry(handle: int, kind: int)

  const NOTHING := Entry(UNKNOWN_HANDLE, TYPE_UNKNOWN)

  /** A network event: its mAllTypes is the bit of its own type, bits as a set of types. */
  datatype Item = Item(handle: int, kind: int, connected: bool, apn: string)

  function OwnTypes(kind: int): set<int> {
    if TYPE_MOBILE <= kind < TYPE_UNKNOWN then {kind} else {}
  }

  function HandlesOf(known: seq<Entry>): set<int> { set e | e in known :: e.handle }
  function TypesOf(known: seq<Entry>): set<int> { set e | e in known :: e.kind }

  predicate Distinct(known: seq<Entry>) {
    forall i, j :: 0 <= i < j < |known| ==> known[i].handle != known[j].handle
  }

  /** Known handles first; the slots after them have the unknown handle, of whatever type. */
  predicate Compact(table: seq<Entry>, known: seq<Entry>) {
    && |known| <= MAX_HANDLES == |table|
    && Distinct(known) && UNKNOWN_HANDLE !in HandlesOf(known)
    && table[..|known|] == known
    && forall i :: |known| <= i < MAX_HANDLES ==> table[i].handle == UNKNOWN_HANDLE
  }

  function Connect(known: seq<Entry>, h: int, kind: int): seq<Entry> {
    if h == UNKNOWN_HANDLE || h in HandlesOf(known) || |known| == MAX_HANDLES then known
    else known + [Entry(h, kind)]
  }

  function IndexOf(known: seq<Entry>, e: Entry): (i: nat)
    ensures i <= |known| && (i < |known| <==> e in known)
    ensures i < |known| ==> known[i] == e
  {
    if known == [] then 0 else if known[0] == e then 0 else 1 + IndexOf(known[1..], e)
  }

  /** The last entry takes the place of the deleted one. */
  function Disconnect(known: seq<Entry>, h: int, kind: int): seq<Entry> {
    var i := IndexOf(known, Entry(h, kind));
    if i == |known| then known else known[i := known[|known| - 1]][..|known| - 1]
  }

  predicate OthersOfKind(known: seq<Entry>, h: int, kind: int) {
    exists e :: e in known && e.kind == kind && e.handle != h
  }

  datatype Net = Net(known: seq<Entry>, types: set<int>, apn: string)

  /** What the new item holds after it was collated with the cached one. */
  function Collated(cur: Net, item: Item): Net {
    var own := OwnTypes(item.kind);
    var apn := if item.kind != TYPE_MOBILE && cur.apn != "" then cur.apn else item.apn;
    if item.connected then Net(Connect(cur.known, item.handle, item.kind), own + cur.types, apn)
    else if own == {} then Net(cur.known, {}, apn)
    else Net(Disconnect(cur.known, item.handle, item.kind),
             if OthersOfKind(cur.known, item.handle, item.kind) then own else cur.types - own, apn)
  }

  // ---------- The table stays a hole-free list of distinct handles ----------

  predicate Proper(known: seq<Entry>) {
    |known| <= MAX_HANDLES && Distinct(known) && UNKNOWN_HANDLE !in HandlesOf(known)
  }

  lemma NoneUnknown(known: seq<Entry>)
    requires UNKNOWN_HANDLE !in HandlesOf(known)
    ensures forall i :: 0 <= i < |known| ==> known[i].handle != UNKNOWN_HANDLE
  {
    assert forall i :: 0 <= i < |known| ==> known[i] in known;
  }

  lemma ConnectAdds(known: seq<Entry>, h: int, kind: int)
    requires Proper(known)
    ensures var after := Connect(known, h, kind);
      && Proper(after) && known <= after
      && HandlesOf(after) == HandlesOf(known) + (if h == UNKNOWN_HANDLE || |known| == MAX_HANDLES then {} else {h})
  {
    var after := Connect(known, h, kind);
    if after != known {
      assert forall i :: 0 <= i < |known| ==> known[i] in known;
      assert after[|known|] == Entry(h, kind);
      assert forall e :: e in known ==> e in after;
    }
  }

  lemma DisconnectDeletes(known: seq<Entry>, h: int, kind: int)
    requires Proper(known)
    ensures var after := Disconnect(known, h, kind);
      && Proper(after)
      && forall e :: e in after <==> e in known && e != Entry(h, kind)
  {
    var i, after := IndexOf(known, Entry(h, kind)), Disconnect(known, h, kind);
    if i < |known| {
      var last := |known| - 1;
      forall e | e in known && e != Entry(h, kind) ensures e in after {
        var k :| 0 <= k < |known| && known[k] == e;
        assert if k == last then after[i] == e else after[k] == e;
      }
      forall e | e in after ensures e in known && e != Entry(h, kind) {
        var k :| 0 <= k < |after| && after[k] == e;
        assert e == if k == i then known[last] else known[k];
      }
    }
  }

  /** After a disconnect of type T its bit is set if and only if a handle of type T is left. */
  lemma DisconnectedTypeBit(cur: Net, item: Item)
    requires Proper(cur.known) && !item.connected && OwnTypes(item.kind) != {}
    ensures var after := Collated(cur, item);
            item.kind in after.types <==> item.kind in TypesOf(after.known)
  {
    DisconnectDeletes(cur.known, item.handle, item.kind);
    var after := Collated(cur, item);
    assert OwnTypes(item.kind) == {item.kind};
    forall e | e in cur.known && e.kind == item.kind ensures e in after.known <==> e.handle != item.handle {
    }
  }

  lemma DisconnectTypes(cur: Net, item: Item)
    requires Proper(cur.known) && !item.connected && OwnTypes(item.kind) != {}
    ensures TypesOf(Disconnect(cur.known, item.handle, item.kind)) ==
            if OthersOfKind(cur.known, item.handle, item.kind) then TypesOf(cur.known)
            else TypesOf(cur.known) - {item.kind}
  {
    var after := Disconnect(cur.known, item.handle, item.kind);
    DisconnectDeletes(cur.known, item.handle, item.kind);
    var others := OthersOfKind(cur.known, item.handle, item.kind);
    forall t ensures t in TypesOf(after) <==> (t in TypesOf(cur.known) && (t == item.kind ==> others)) {
      if t in TypesOf(cur.known) {
        var e :| e in cur.known && e.kind == t;
        if t == item.kind && others {
          var o :| o in cur.known && o.kind == item.kind && o.handle != item.handle;
          assert o in after;
        } else if t != item.kind {
          assert e in after;
        }
      }
    }
  }

  /** When the mask agreed with the table, it agrees after a disconnect if and only if no other
    * handle of that type is left or the table holds no other type. */
  lemma DisconnectAgreesIff(cur: Net, item: Item)
    requires Proper(cur.known) && !item.connected && OwnTypes(item.kind) != {}
    requires cur.types == TypesOf(cur.known)
    ensures var after := Collated(cur, item);
            after.types == TypesOf(after.known) <==>
              !OthersOfKind(cur.known, item.handle, item.kind) || TypesOf(cur.known) == {item.kind}
  {
    DisconnectTypes(cur, item);
    assert OwnTypes(item.kind) == {item.kind};
  }

  /** After a connect of a known type the mask still agrees if and only if the table had the type or
    * takes the handle. */
  lemma ConnectAgreesIff(cur: Net, item: Item)
    requires Proper(cur.known) && item.connected && OwnTypes(item.kind) != {}
    requires cur.types == TypesOf(cur.known)
    ensures var after := Collated(cur, item);
            after.types == TypesOf(after.known) <==>
              || item.kind in TypesOf(cur.known)
              || (item.handle != UNKNOWN_HANDLE && item.handle !in HandlesOf(cur.known) && |cur.known| < MAX_HANDLES)
  {
    var after := Connect(cur.known, item.handle, item.kind);
    assert OwnTypes(item.kind) == {item.kind};
    if after != cur.known {
      assert after[|cur.known|] == Entry(item.handle, item.kind);
      assert forall e :: e in after <==> e in cur.known || e == Entry(item.handle, item.kind);
    }
  }

  /** Disconnecting takes out what connecting put in. */
  lemma DisconnectUndoesConnect(known: seq<Entry>, h: int, kind: int)
    requires Proper(known)
    requires h != UNKNOWN_HANDLE && h !in HandlesOf(known) && |known| < MAX_HANDLES
    ensures Disconnect(Connect(known, h, kind), h, kind) == known
  {
    var after := Connect(known, h, kind);
    ConnectAdds(known, h, kind);
    var i := IndexOf(after, Entry(h, kind));
    assert after[|known|] == Entry(h, kind);
    assert forall k :: 0 <= k < |known| ==> known[k] in known;
  }

  function CollateAll(cur: Net, items: seq<Item>): Net
    decreases |items|
  {
    if items == [] then cur else CollateAll(Collated(cur, items[0]), items[1..])
  }

  lemma {:induction false} RunKeepsTable(cur: Net, items: seq<Item>)
    requires Proper(cur.known)
    ensures Proper(CollateAll(cur, items).known)
    decreases |items|
  {
    if items != [] {
      ConnectAdds(cur.known, items[0].handle, items[0].kind);
      DisconnectDeletes(cur.known, items[0].handle, items[0].kind);
      RunKeepsTable(Collated(cur, items[0]), items[1..]);
    }
  }

  /** The whole collate on the table: a connect adds at most its own entry, a disconnect deletes at
    * most its own, and a disconnect without a type bit changes nothing. */
  lemma CollateEntries(cur: Net, item: Item, e: Entry)
    requires Proper(cur.known)
    ensures var own := Entry(item.handle, item.kind);
            e in Collated(cur, item).known <==>
              if item.connected then
                e in cur.known || (&& e == own && item.handle != UNKNOWN_HANDLE
                                   && item.handle !in HandlesOf(cur.known) && |cur.known| < MAX_HANDLES)
              else e in cur.known && (e == own ==> OwnTypes(item.kind) == {})
  {
    if item.connected {
      var after := Connect(cur.known, item.handle, item.kind);
      if after != cur.known { assert after[|cur.known|] == Entry(item.handle, item.kind); }
    } else {
      DisconnectDeletes(cur.known, item.handle, item.kind);
    }
  }

  /** Every bit of the mask after a collate. After a disconnect of a type with other handles left only
    * its own bit stays; one without a type bit clears the mask. */
  lemma CollateMask(cur: Net, item: Item, bit: int)
    ensures var known := 0 <= item.kind <= 9;
            bit in Collated(cur, item).types <==>
              if item.connected then bit in cur.types || (known && bit == item.kind)
              else
                && known
                && if exists e :: e in cur.known && e.kind == item.kind && e.handle != item.handle
                   then bit == item.kind else bit in cur.types && bit != item.kind
  {
  }

  /** The names that matter: from the latest mobile event on, else from the cached one on. */
  function NamesSinceMobile(cached: string, items: seq<Item>): seq<string> {
    if items == [] then [cached]
    else
      var last := items[|items| - 1];
      if last.kind == 0 then [last.apn] else NamesSinceMobile(cached, items[..|items| - 1]) + [last.apn]
  }

  function FirstName(names: seq<string>): string {
    if names == [] then "" else if names[0] != "" then names[0] else FirstName(names[1..])
  }

  lemma {:induction false} FirstNameSnoc(names: seq<string>, name: string)
    ensures FirstName(names + [name]) == if FirstName(names) != "" then FirstName(names) else name
  {
    if names != [] {
      FirstNameSnoc(names[1..], name);
      assert (names + [name])[1..] == names[1..] + [name];
    } else {
      assert names + [name] == [name] && [name][1..] == [];
    }
  }

  lemma {:induction false} CollateSnoc(cur: Net, items: seq<Item>, item: Item)
    ensures CollateAll(cur, items + [item]) == Collated(CollateAll(cur, items), item)
    decreases |items|
  {
    if items != [] {
      CollateSnoc(Collated(cur, items[0]), items[1..], item);
      assert (items + [item])[1..] == items[1..] + [item];
    } else {
      assert items + [item] == [item] && [item][1..] == [];
    }
  }

  /** After any events the access point name is the first that is not empty since the latest mobile
    * event; a mobile event with an empty name clears it. */
  lemma {:induction false} NameIsFirstSinceMobile(cur: Net, items: seq<Item>)
    ensures CollateAll(cur, items).apn == FirstName(NamesSinceMobile(cur.apn, items))
    decreases |items|
  {
    if items == [] {
      assert [cur.apn][1..] == [];
    } else {
      var front, last := items[..|items| - 1], items[|items| - 1];
      assert items == front + [last];
      NameIsFirstSinceMobile(cur, front);
      CollateSnoc(cur, front, last);
      FirstNameSnoc(NamesSinceMobile(cur.apn, front), last.apn);
      assert [last.apn][1..] == [];
    }
  }

  /** The access point name of a mobile event, or the first one known, stays over any run of events
    * of other types. */
  lemma MobileApnStays(cur: Net, items: seq<Item>)
    requires items != [] && items[0].apn != "" && (items[0].kind == TYPE_MOBILE || cur.apn == "")
    requires forall i :: 0 < i < |items| ==> items[i].kind != TYPE_MOBILE
    ensures CollateAll(cur, items).apn == items[0].apn
  {
    ApnKept(Collated(cur, items[0]), items[1..]);
  }

  lemma {:induction false} ApnKept(cur: Net, items: seq<Item>)
    requires cur.apn != "" && forall item :: item in items ==> item.kind != TYPE_MOBILE
    ensures CollateAll(cur, items).apn == cur.apn
    decreases |items|
  {
    if items != [] { ApnKept(Collated(cur, items[0]), items[1..]); }
  }

  // ---------- The table as an array ----------

  class SystemStatusNetworkInfo {
    var allTypes: set<int>
    var kind: int
    var connected: bool
    var networkHandle: int
    var apn: string
    const allNetworkHandles: array<Entry>

    ghost predicate Holds(known: seq<Entry>)
      reads this, allNetworkHandles
    {
      Compact(allNetworkHandles[..], known)
    }

    ghost function Event(): Item
      reads this
    {
      Item(networkHandle, kind, connected, apn)
    }

    /** Its own handle is the first entry of a new item; an unknown one leaves the table empty. */
    constructor (item: Item)
      ensures Event() == item && allTypes == OwnTypes(item.kind)
      ensures fresh(allNetworkHandles)
      ensures Holds(if item.handle == UNKNOWN_HANDLE then [] else [Entry(item.handle, item.kind)])
    {
      allTypes := OwnTypes(item.kind);
      kind, connected, networkHandle, apn := item.kind, item.connected, item.handle, item.apn;
      allNetworkHandles := new Entry[MAX_HANDLES](_ => NOTHING);
      new;
      allNetworkHandles[0] := Entry(item.handle, item.kind);
    }

    method Collate(cur: SystemStatusNetworkInfo, ghost known: seq<Entry>)
      requires allTypes == OwnTypes(kind) && allNetworkHandles != cur.allNetworkHandles
      requires cur.Holds(known) && allNetworkHandles.Length == MAX_HANDLES
      modifies this, allNetworkHandles
      ensures cur.Holds(known)
      ensures var after := Collated(Net(known, old(cur.allTypes), old(cur.apn)), old(Event()));
        && Holds(after.known) && allTypes == after.types && apn == after.apn
        && kind == old(kind) && connected == old(connected) && networkHandle == old(networkHandle)
    {
      var curTypes, curApn := cur.allTypes, cur.apn;
      forall i | 0 <= i < MAX_HANDLES {
        allNetworkHandles[i] := cur.allNetworkHandles[i];
      }
      assert allNetworkHandles[..] == cur.allNetworkHandles[..];
      if kind != TYPE_MOBILE && curApn != "" {
        apn := curApn;
      }
      if connected {
        allTypes := allTypes + curTypes;
        InsertHandle(known);
      } else if allTypes != {} {
        var others := DeleteHandle(known);
        if !others {
          allTypes := curTypes - allTypes;
        }
      }
    }

    method InsertHandle(ghost known: seq<Entry>)
      requires Holds(known)
      modifies allNetworkHandles
      ensures Holds(Connect(known, networkHandle, kind))
    {
      NoneUnknown(known);
      var i := 0;
      while i < MAX_HANDLES
        invariant i <= |known| && allNetworkHandles[..] == old(allNetworkHandles[..])
        invariant forall j :: 0 <= j < i ==> known[j].handle != networkHandle
      {
        assert i < |known| ==> allNetworkHandles[..][i] == known[i];
        if networkHandle == allNetworkHandles[i].handle {
          assert i < |known| ==> known[i] in known;
          return;
        }
        if allNetworkHandles[i].handle == UNKNOWN_HANDLE {
          ConnectAdds(known, networkHandle, kind);
          allNetworkHandles[i] := Entry(networkHandle, kind);
          assert allNetworkHandles[..|known| + 1] == known + [Entry(networkHandle, kind)];
          return;
        }
        i := i + 1;
      }
    }

    /** One pass counts the other handles of the type and finds the entry to delete. */
    method DeleteHandle(ghost known: seq<Entry>) returns (others: bool)
      requires Holds(known)
      modifies allNetworkHandles
      ensures Holds(Disconnect(known, networkHandle, kind))
      ensures others <==> OthersOfKind(known, networkHandle, kind)
    {
      NoneUnknown(known);
      var deletedIndex, lastValidIndex, typeCount := MAX_HANDLES, 0, 0;
      while lastValidIndex < MAX_HANDLES && allNetworkHandles[lastValidIndex].handle != UNKNOWN_HANDLE
        invariant lastValidIndex <= |known|
        invariant 0 <= typeCount
        invariant typeCount > 0 <==>
                    exists j :: 0 <= j < lastValidIndex && known[j].kind == kind && known[j].handle != networkHandle
        invariant deletedIndex == MAX_HANDLES ==> Entry(networkHandle, kind) !in known[..lastValidIndex]
        invariant deletedIndex != MAX_HANDLES ==>
                    0 <= deletedIndex < lastValidIndex && known[deletedIndex] == Entry(networkHandle, kind)
        invariant allNetworkHandles[..] == old(allNetworkHandles[..])
      {
        assert allNetworkHandles[..][lastValidIndex].handle != UNKNOWN_HANDLE;
        assert allNetworkHandles[..][lastValidIndex] == known[lastValidIndex];
        if kind == allNetworkHandles[lastValidIndex].kind {
          if networkHandle == allNetworkHandles[lastValidIndex].handle {
            deletedIndex := lastValidIndex;
          } else {
            typeCount := typeCount + 1;
          }
        }
        lastValidIndex := lastValidIndex + 1;
      }
      assert lastValidIndex < |known| ==> allNetworkHandles[..][lastValidIndex] == known[lastValidIndex];
      others := typeCount > 0;
      if lastValidIndex > 0 {
        lastValidIndex := lastValidIndex - 1;
      }
      if deletedIndex != MAX_HANDLES {
        SwapDelete(known, deletedIndex, lastValidIndex);
      }
    }

    method SwapDelete(ghost known: seq<Entry>, deletedIndex: nat, lastValidIndex: nat)
      requires Holds(known) && deletedIndex <= lastValidIndex == |known| - 1
      requires known[deletedIndex] == Entry(networkHandle, kind)
      modifies allNetworkHandles
      ensures Holds(Disconnect(known, networkHandle, kind))
    {
      DisconnectDeletes(known, networkHandle, kind);
      ghost var i := IndexOf(known, Entry(networkHandle, kind));
      assert i == deletedIndex;
      assert allNetworkHandles[..][lastValidIndex] == known[lastValidIndex];
      allNetworkHandles[deletedIndex] := allNetworkHandles[lastValidIndex];
      allNetworkHandles[lastValidIndex] := NOTHING;
      ghost var after := Disconnect(known, networkHandle, kind);
      assert allNetworkHandles[..|after|] == after;
    }

    method Equals(peer: SystemStatusNetworkInfo) returns (same: bool)
      requires allNetworkHandles.Length == MAX_HANDLES == peer.allNetworkHandles.Length
      ensures same <==>
                && allTypes == peer.allTypes && connected == peer.connected && apn == peer.apn
                && allNetworkHandles[..] == peer.allNetworkHandles[..]
    {
      same := allTypes == peer.allTypes && connected == peer.connected;
      var i := 0;
      while same && i < MAX_HANDLES
        invariant 0 <= i <= MAX_HANDLES
        invariant same ==> allTypes == peer.allTypes && connected == peer.connected
        invariant same ==> allNetworkHandles[..i] == peer.allNetworkHandles[..i]
        invariant !same ==>
                    || allTypes != peer.allTypes || connected != peer.connected
                    || allNetworkHandles[..] != peer.allNetworkHandles[..]
        decreases MAX_HANDLES - i, same
      {
        same := allNetworkHandles[i] == peer.allNetworkHandles[i];
        assert allNetworkHandles[..][i] == allNetworkHandles[i];
        assert peer.allNetworkHandles[..][i] == peer.allNetworkHandles[i];
        i := i + 1;
      }
      same := same && apn == peer.apn;
    }
  }
}
