/**
 * The event stores as values: a map from date key to the ordered list of that
 * day's events. An event has no identity beyond its position in its day's list.
 * The functions here say what each store operation does to a map; the class in
 * CalendarApp performs them in place and is proved to agree with them.
 */
module Events {

  datatype Event = Event(description: string)

  type EventMap = map<string, seq<Event>>

  /** A date that is present maps to a non-empty list: emptying a list removes its key. */
  predicate WellFormed(m: EventMap) {
    forall d :: d in m ==> |m[d]| > 0
  }

  /** The list stored under `date`, the empty list when there is none. */
  function Lookup(m: EventMap, date: string): seq<Event> {
    if date in m then m[date] else []
  }

  /** In a well-formed map, a date is present exactly when it has events. */
  lemma LookupPresent(m: EventMap, date: string)
    requires WellFormed(m)
    ensures date in m <==> Lookup(m, date) != []
    ensures date in m ==> Lookup(m, date) == m[date]
  {
  }

  /** `m` with `e` appended to the list of `date`, which is created when absent. */
  function Append(m: EventMap, date: string, e: Event): EventMap {
    m[date := Lookup(m, date) + [e]]
  }

  lemma AppendSpec(m: EventMap, date: string, e: Event)
    requires WellFormed(m)
    ensures WellFormed(Append(m, date, e))
    ensures Append(m, date, e).Keys == m.Keys + {date}
    ensures Append(m, date, e)[date] == Lookup(m, date) + [e]
    ensures forall d :: d != date ==> Lookup(Append(m, date, e), d) == Lookup(m, d)
  {
  }

  /** `m` with the event at `index` of `date` replaced by `e`. */
  function Replace(m: EventMap, date: string, index: nat, e: Event): EventMap
    requires date in m && index < |m[date]|
  {
    m[date := m[date][index := e]]
  }

  lemma ReplaceSpec(m: EventMap, date: string, index: nat, e: Event)
    requires WellFormed(m)
    requires date in m && index < |m[date]|
    ensures WellFormed(Replace(m, date, index, e))
    ensures Replace(m, date, index, e).Keys == m.Keys
    ensures |Replace(m, date, index, e)[date]| == |m[date]|
    ensures Replace(m, date, index, e)[date][index] == e
    ensures forall j :: 0 <= j < |m[date]| && j != index ==> Replace(m, date, index, e)[date][j] == m[date][j]
    ensures forall d :: d in m && d != date ==> Replace(m, date, index, e)[d] == m[d]
  {
  }

  /**
   * `s.splice(index, 1)` for an index as the view hands out (never negative):
   * drops the element at `index`, or nothing when `index` is past the end.
   */
  function Splice(s: seq<Event>, index: nat): (r: seq<Event>)
    ensures index < |s| ==> |r| == |s| - 1
    ensures index >= |s| ==> r == s
  {
    if index < |s| then s[..index] + s[index + 1..] else s
  }

  /** The element at `index` is removed and later elements move down by one. */
  lemma SpliceShifts(s: seq<Event>, index: nat)
    requires index < |s|
    ensures forall j :: 0 <= j < index ==> Splice(s, index)[j] == s[j]
    ensures forall j :: index <= j < |s| - 1 ==> Splice(s, index)[j] == s[j + 1]
    ensures multiset(Splice(s, index)) + multiset{s[index]} == multiset(s)
  {
    assert s == s[..index] + [s[index]] + s[index + 1..];
  }

  /** `m` with the event at `index` of `date` removed, and the key removed with its last event. */
  function Remove(m: EventMap, date: string, index: nat): EventMap
    requires date in m
  {
    var rest := Splice(m[date], index);
    if |rest| == 0 then m - {date} else m[date := rest]
  }

  lemma RemoveSpec(m: EventMap, date: string, index: nat)
    requires WellFormed(m) && date in m
    ensures WellFormed(Remove(m, date, index))
    ensures Lookup(Remove(m, date, index), date) == Splice(m[date], index)
    ensures date !in Remove(m, date, index) <==> |m[date]| == 1 && index == 0
    ensures Remove(m, date, index).Keys <= m.Keys
    ensures forall d :: d != date ==> Lookup(Remove(m, date, index), d) == Lookup(m, d)
  {
  }

  /** Deleting the only event of a date leaves no entry for that date. */
  lemma RemoveLast(m: EventMap, date: string)
    requires WellFormed(m) && date in m && |m[date]| == 1
    ensures Remove(m, date, 0) == m - {date}
  {
  }

  /** Every pending list appended to the published list of its date. */
  function Publish(published: EventMap, pending: EventMap): EventMap {
    map d | d in published.Keys + pending.Keys :: Lookup(published, d) + Lookup(pending, d)
  }

  lemma PublishSpec(published: EventMap, pending: EventMap)
    requires WellFormed(published) && WellFormed(pending)
    ensures WellFormed(Publish(published, pending))
    ensures Publish(published, pending).Keys == published.Keys + pending.Keys
    ensures forall d :: Lookup(Publish(published, pending), d) == Lookup(published, d) + Lookup(pending, d)
  {
    var r := Publish(published, pending);
    forall d | d in r ensures |r[d]| > 0 {
      LookupPresent(published, d);
      LookupPresent(pending, d);
    }
  }

  /** A map that agrees with `Publish` on its keys and at every date is `Publish`. */
  lemma PublishExtensional(r: EventMap, published: EventMap, pending: EventMap)
    requires r.Keys == published.Keys + pending.Keys
    requires forall d :: d in r ==> r[d] == Lookup(published, d) + Lookup(pending, d)
    ensures r == Publish(published, pending)
  {
  }

  /** No published event is lost, and published events stay ahead of newly published ones. */
  lemma PublishKeepsPublished(published: EventMap, pending: EventMap, date: string)
    ensures Lookup(published, date) <= Lookup(Publish(published, pending), date)
    ensures date !in pending ==> Lookup(Publish(published, pending), date) == Lookup(published, date)
  {
    var r := Publish(published, pending);
    if date in published || date in pending {
      assert date in r;
    }
  }

  /** Every pending event is published under its date, in its order. */
  lemma PublishKeepsPending(published: EventMap, pending: EventMap, date: string, j: nat)
    requires j < |Lookup(pending, date)|
    ensures var r := Lookup(Publish(published, pending), date);
      |Lookup(published, date)| + j < |r| && r[|Lookup(published, date)| + j] == Lookup(pending, date)[j]
  {
    assert date in Publish(published, pending);
  }

  /** Publishing an empty pending store changes nothing. */
  lemma PublishNothing(published: EventMap)
    ensures Publish(published, map[]) == published
  {
    var r := Publish(published, map[]);
    assert r.Keys == published.Keys;
    forall d | d in r ensures r[d] == published[d] {
      assert Lookup(map[], d) == [];
    }
  }
}
