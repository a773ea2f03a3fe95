/** The bounded history of each report in the status cache (gps/core/SystemStatus.cpp). */
module ReportHistory {

  const MAX_ITEM := 5  // SystemStatusItemBase::maxItem

  /** An item with its reported time. Its class gives `equals` and `ignore`; collate is the identity. */
  datatype Record<T> = Record(value: T, reported: int)

  type Same<!T> = (T, T) -> bool
  type Skip<!T> = T -> bool

  ghost predicate Equivalence<T(!new)>(same: Same<T>) {
    && (forall a :: same(a, a))
    && (forall a, b :: same(a, b) ==> same(b, a))
    && (forall a, b, c :: same(a, b) && same(b, c) ==> same(a, c))
  }

  function Last<T>(s: seq<T>): T
    requires s != []
  {
    s[|s| - 1]
  }

  function Tail<T>(s: seq<T>, n: nat): seq<T> {
    if |s| <= n then s else s[|s| - n..]
  }

  function Stored<T>(report: seq<Record<T>>, r: Record<T>): seq<Record<T>> {
    Tail(report + [r], MAX_ITEM)
  }

  function SetItem<T>(same: Same<T>, skip: Skip<T>, report: seq<Record<T>>, r: Record<T>): (seq<Record<T>>, bool) {
    if skip(r.value) then (report, false)
    else if report != [] && same(Last(report).value, r.value) then
      (report[|report| - 1 := Last(report).(reported := r.reported)], false)
    else (Stored(report, r), true)
  }

  class Report<T> {
    var report: seq<Record<T>>

    constructor ()
      ensures report == []
    {
      report := [];
    }

    method SetItemInReport(same: Same<T>, skip: Skip<T>, r: Record<T>) returns (changed: bool)
      requires |report| <= MAX_ITEM
      modifies this
      ensures (report, changed) == SetItem(same, skip, old(report), r)
    {
      if skip(r.value) {
        return false;
      }
      if report != [] && same(report[|report| - 1].value, r.value) {
        report := report[|report| - 1 := report[|report| - 1].(reported := r.reported)];
        return false;
      }
      SetDefaultItemInReport(r);
      changed := true;
    }

    /** Also the second half of setIteminReport: the new item goes in, the oldest may go out. */
    method SetDefaultItemInReport(r: Record<T>)
      requires |report| <= MAX_ITEM
      modifies this
      ensures report == Stored(old(report), r) && |report| <= MAX_ITEM
    {
      report := report + [r];
      if |report| > MAX_ITEM {
        report := report[1..];
      }
    }

    /** The latest item alone, when there is one. */
    method GetItemInReport() returns (out: seq<Record<T>>)
      ensures out == Tail(report, 1)
    {
      out := [];
      if |report| >= 1 {
        out := out + [report[|report| - 1]];
      }
    }
  }

  // ---------- The stream behind the history ----------

  function Run<T>(same: Same<T>, skip: Skip<T>, rs: seq<Record<T>>): seq<Record<T>> {
    if rs == [] then [] else SetItem(same, skip, Run(same, skip, rs[..|rs| - 1]), Last(rs)).0
  }

  function Kept<T>(skip: Skip<T>, rs: seq<Record<T>>): seq<T> {
    if rs == [] then []
    else if skip(Last(rs).value) then Kept(skip, rs[..|rs| - 1])
    else Kept(skip, rs[..|rs| - 1]) + [Last(rs).value]
  }

  /** Of each run of equal neighbours the first. */
  function Collapse<T>(same: Same<T>, vs: seq<T>): seq<T> {
    if |vs| <= 1 then vs
    else if same(vs[|vs| - 2], vs[|vs| - 1]) then Collapse(same, vs[..|vs| - 1])
    else Collapse(same, vs[..|vs| - 1]) + [Last(vs)]
  }

  function Values<T>(report: seq<Record<T>>): seq<T> {
    if report == [] then [] else Values(report[..|report| - 1]) + [Last(report).value]
  }

  lemma {:induction false} ValuesAt<T>(report: seq<Record<T>>)
    ensures |Values(report)| == |report|
    ensures forall i :: 0 <= i < |report| ==> Values(report)[i] == report[i].value
  {
    if report != [] { ValuesAt(report[..|report| - 1]); }
  }

  /** The last collapsed value is equal to the last value of the stream. */
  lemma {:induction false} CollapseLast<T(!new)>(same: Same<T>, vs: seq<T>)
    requires Equivalence(same) && vs != []
    ensures Collapse(same, vs) != [] && same(Last(Collapse(same, vs)), Last(vs))
  {
    if |vs| > 1 {
      CollapseLast(same, vs[..|vs| - 1]);
    }
  }

  lemma CollapseGrows<T(!new)>(same: Same<T>, vs: seq<T>, v: T)
    requires Equivalence(same)
    ensures var c := Collapse(same, vs);
            Collapse(same, vs + [v]) == if c != [] && same(Last(c), v) then c else c + [v]
  {
    assert (vs + [v])[..|vs|] == vs;
    if vs != [] {
      CollapseLast(same, vs);
    }
  }

  /** The history is the end of the collapsed stream, and an item is reported as a change exactly
    * when the collapsed stream grows. */
  lemma {:induction false} HistoryIsTail<T(!new)>(same: Same<T>, skip: Skip<T>, rs: seq<Record<T>>)
    requires Equivalence(same)
    ensures Values(Run(same, skip, rs)) == Tail(Collapse(same, Kept(skip, rs)), MAX_ITEM)
  {
    if rs != [] {
      var front, r := rs[..|rs| - 1], Last(rs);
      HistoryIsTail(same, skip, front);
      SetItemFollows(same, skip, Run(same, skip, front), Kept(skip, front), r);
    }
  }

  lemma ValuesStored<T>(report: seq<Record<T>>, r: Record<T>)
    ensures Values(Stored(report, r)) == Tail(Values(report) + [r.value], MAX_ITEM)
  {
    ValuesAt(report);
    ValuesAt(Stored(report, r));
  }

  lemma ValuesTouched<T>(report: seq<Record<T>>, time: int)
    requires report != []
    ensures Values(report[|report| - 1 := Last(report).(reported := time)]) == Values(report)
  {
    ValuesAt(report);
    ValuesAt(report[|report| - 1 := Last(report).(reported := time)]);
  }

  /** The end of a stream that grows depends on its end alone. */
  lemma TailGrows<T>(vs: seq<T>, v: T)
    ensures Tail(Tail(vs, MAX_ITEM) + [v], MAX_ITEM) == Tail(vs + [v], MAX_ITEM)
  {
  }

  lemma LastOfTail<T>(vs: seq<T>)
    requires vs != []
    ensures Tail(vs, MAX_ITEM) != [] && Last(Tail(vs, MAX_ITEM)) == Last(vs)
  {
  }

  lemma SetItemFollows<T(!new)>(same: Same<T>, skip: Skip<T>, report: seq<Record<T>>, kept: seq<T>, r: Record<T>)
    requires Equivalence(same)
    requires Values(report) == Tail(Collapse(same, kept), MAX_ITEM)
    ensures var kept' := if skip(r.value) then kept else kept + [r.value];
            var (report', changed) := SetItem(same, skip, report, r);
      && Values(report') == Tail(Collapse(same, kept'), MAX_ITEM)
      && (changed <==> |Collapse(same, kept')| > |Collapse(same, kept)|)
  {
    var c := Collapse(same, kept);
    CollapseGrows(same, kept, r.value);
    ValuesAt(report);
    ValuesStored(report, r);
    TailGrows(c, r.value);
    if c != [] {
      LastOfTail(c);
      assert Last(report).value == Last(Values(report)) == Last(c);
      ValuesTouched(report, r.reported);
    }
  }

  lemma ChangeReported<T(!new)>(same: Same<T>, skip: Skip<T>, rs: seq<Record<T>>, r: Record<T>)
    requires Equivalence(same)
    ensures SetItem(same, skip, Run(same, skip, rs), r).1 <==>
            |Collapse(same, Kept(skip, rs + [r]))| > |Collapse(same, Kept(skip, rs))|
  {
    HistoryIsTail(same, skip, rs);
    SetItemFollows(same, skip, Run(same, skip, rs), Kept(skip, rs), r);
    assert (rs + [r])[..|rs|] == rs;
  }

  /** The latest record that is not ignored. */
  function LatestKept<T>(skip: Skip<T>, rs: seq<Record<T>>): seq<Record<T>> {
    if rs == [] then []
    else if skip(Last(rs).value) then LatestKept(skip, rs[..|rs| - 1])
    else [Last(rs)]
  }

  /** Over any stream: the report is empty exactly when everything was ignored, and else its latest
    * entry carries the reported time of the latest item that was not. */
  lemma {:induction false} LatestTime<T>(same: Same<T>, skip: Skip<T>, rs: seq<Record<T>>)
    ensures var (report, kept) := (Run(same, skip, rs), LatestKept(skip, rs));
      && (report == [] <==> kept == [])
      && (report != [] ==> Last(report).reported == kept[0].reported)
  {
    if rs != [] { LatestTime(same, skip, rs[..|rs| - 1]); }
  }
}
