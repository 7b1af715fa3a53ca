/** The list logic of the web views (flask_app.py): the ongoing-first ordering of `index`, the
    filters of `raids` and `spawns`, and the index check of `api_event_detail`. The event list that
    `load_events` reads from events.json is an input. */
module Views {
  import opened Records
  import Seqs

  /** `e.get("is_ongoing", False)`: only a record that went through the detail scrape has the key;
      a record without it counts as not ongoing. */
  predicate IsOngoing(e: Event) {
    e.outcome.Fetched? && e.outcome.detail.isOngoing
  }

  predicate NotOngoing(e: Event) {
    !IsOngoing(e)
  }

  /** `sort(key=lambda e: not e.get("is_ongoing", False))`: Python's sort is stable and `False`
      sorts before `True`, so the result is the ongoing events, then the others, each group in
      its original order. */
  function OngoingFirst(s: seq<Event>): seq<Event> {
    Seqs.Filter(IsOngoing, s) + Seqs.Filter(NotOngoing, s)
  }

  /** No event that is not ongoing comes before an ongoing one. */
  predicate OngoingBeforeRest(r: seq<Event>) {
    forall i, j :: 0 <= i < j < |r| && IsOngoing(r[j]) ==> IsOngoing(r[i])
  }

  /** The ordering is a permutation: nothing is lost, added or duplicated. */
  lemma OngoingFirstPermutation(s: seq<Event>)
    ensures multiset(OngoingFirst(s)) == multiset(s)
    ensures |OngoingFirst(s)| == |s|
  {
    Seqs.FilterSplit(IsOngoing, NotOngoing, s);
  }

  /** Every ongoing event comes before every other event. */
  lemma OngoingFirstOrdered(s: seq<Event>)
    ensures OngoingBeforeRest(OngoingFirst(s))
  {
    var a, b := Seqs.Filter(IsOngoing, s), Seqs.Filter(NotOngoing, s);
    var r := a + b;
    assert forall k :: 0 <= k < |a| ==> IsOngoing(r[k]);
    assert forall k :: |a| <= k < |r| ==> r[k] == b[k - |a|] && !IsOngoing(r[k]);
  }

  /** The ordering is stable: within each group the events keep their relative order. */
  lemma OngoingFirstStable(s: seq<Event>)
    ensures Seqs.Filter(IsOngoing, OngoingFirst(s)) == Seqs.Filter(IsOngoing, s)
    ensures Seqs.Filter(NotOngoing, OngoingFirst(s)) == Seqs.Filter(NotOngoing, s)
  {
    var a, b := Seqs.Filter(IsOngoing, s), Seqs.Filter(NotOngoing, s);
    Seqs.FilterConcat(IsOngoing, a, b);
    Seqs.FilterConcat(NotOngoing, a, b);
    Seqs.FilterNoneOrAll(IsOngoing, a);
    Seqs.FilterNoneOrAll(NotOngoing, a);
    Seqs.FilterNoneOrAll(IsOngoing, b);
    Seqs.FilterNoneOrAll(NotOngoing, b);
  }

  /** A list whose ongoing events all come first is its ongoing events followed by the rest. */
  lemma {:induction false} OrderedIsSplit(r: seq<Event>)
    requires OngoingBeforeRest(r)
    ensures r == Seqs.Filter(IsOngoing, r) + Seqs.Filter(NotOngoing, r)
  {
    if r != [] {
      var init, last := r[..|r| - 1], r[|r| - 1];
      if IsOngoing(last) {
        AllOngoing(r);
      } else {
        assert OngoingBeforeRest(init);
        OrderedIsSplit(init);
        assert Seqs.Filter(IsOngoing, r) == Seqs.Filter(IsOngoing, init);
        assert r == init + [last];
      }
    }
  }

  /** A list whose last event is ongoing and whose ongoing events come first is all ongoing. */
  lemma AllOngoing(r: seq<Event>)
    requires OngoingBeforeRest(r) && r != [] && IsOngoing(r[|r| - 1])
    ensures Seqs.Filter(IsOngoing, r) == r && Seqs.Filter(NotOngoing, r) == []
  {
    assert forall k :: 0 <= k < |r| ==> IsOngoing(r[k]);
    Seqs.FilterNoneOrAll(IsOngoing, r);
    Seqs.FilterNoneOrAll(NotOngoing, r);
  }

  /** The ordering is the only stable one: any list that puts the ongoing events first and keeps
      each group in its original order is exactly `OngoingFirst(s)`. */
  lemma OngoingFirstUnique(s: seq<Event>, r: seq<Event>)
    requires OngoingBeforeRest(r)
    requires Seqs.Filter(IsOngoing, r) == Seqs.Filter(IsOngoing, s)
    requires Seqs.Filter(NotOngoing, r) == Seqs.Filter(NotOngoing, s)
    ensures r == OngoingFirst(s)
  {
    OrderedIsSplit(r);
  }

  /** One pass over the list: the ongoing events are gathered, then the others, each in list
      order. */
  method GatherOngoingFirst(s: seq<Event>) returns (sorted: seq<Event>)
    ensures sorted == OngoingFirst(s)
  {
    var ongoing: seq<Event> := [];
    var rest: seq<Event> := [];
    for i := 0 to |s|
      invariant ongoing == Seqs.Filter(IsOngoing, s[..i])
      invariant rest == Seqs.Filter(NotOngoing, s[..i])
    {
      assert s[..i + 1] == s[..i] + [s[i]];
      Seqs.FilterConcat(IsOngoing, s[..i], [s[i]]);
      Seqs.FilterConcat(NotOngoing, s[..i], [s[i]]);
      if IsOngoing(s[i]) {
        ongoing := ongoing + [s[i]];
      } else {
        rest := rest + [s[i]];
      }
    }
    assert s[..|s|] == s;
    sorted := ongoing + rest;
  }

  /** `events.sort(key=lambda e: not e.get("is_ongoing", False))`, in place: the array is rewritten
      in ongoing-first order. */
  method SortOngoingFirst(a: array<Event>)
    modifies a
    ensures a[..] == OngoingFirst(old(a[..]))
  {
    var sorted := GatherOngoingFirst(a[..]);
    OngoingFirstPermutation(a[..]);
    for k := 0 to a.Length
      invariant forall j :: 0 <= j < k ==> a[j] == sorted[j]
    {
      a[k] := sorted[k];
    }
  }

  /** The list a view shows: `events` copied into a fresh list and sorted ongoing-first in place. */
  method SortedView(events: seq<Event>) returns (shown: seq<Event>)
    ensures shown == OngoingFirst(events)
  {
    var a := new Event[|events|](i requires 0 <= i < |events| => events[i]);
    assert a[..] == events;
    SortOngoingFirst(a);
    shown := a[..];
  }

  /** `index` (flask_app.py:17-23): every event, ongoing ones first. */
  method Index(events: seq<Event>) returns (shown: seq<Event>)
    ensures multiset(shown) == multiset(events)
    ensures OngoingBeforeRest(shown)
    ensures Seqs.Filter(IsOngoing, shown) == Seqs.Filter(IsOngoing, events)
    ensures Seqs.Filter(NotOngoing, shown) == Seqs.Filter(NotOngoing, events)
  {
    shown := SortedView(events);
    OngoingFirstPermutation(events);
    OngoingFirstOrdered(events);
    OngoingFirstStable(events);
  }

  /** The filter of `raids` (flask_app.py:31): a `raid_pokemon` dict that is present and not empty. */
  predicate HasRaids(e: Event) {
    e.outcome.Fetched? && |e.outcome.detail.raidPokemon| > 0
  }

  /** The filter of `spawns` (flask_app.py:42): a `spawns` list that is present and not empty. */
  predicate HasSpawns(e: Event) {
    e.outcome.Fetched? && |e.outcome.detail.spawns| > 0
  }

  /** The filter of a view followed by the ongoing-first ordering: exactly the kept events, each
      once, the ongoing ones first, each group in the order of the event list. */
  lemma FilteredView(keep: Event -> bool, events: seq<Event>)
    ensures multiset(OngoingFirst(Seqs.Filter(keep, events))) == multiset(Seqs.Filter(keep, events))
    ensures forall e :: e in OngoingFirst(Seqs.Filter(keep, events)) <==> e in events && keep(e)
    ensures OngoingBeforeRest(OngoingFirst(Seqs.Filter(keep, events)))
    ensures Seqs.Filter(IsOngoing, OngoingFirst(Seqs.Filter(keep, events))) == Seqs.Filter(IsOngoing, Seqs.Filter(keep, events))
    ensures Seqs.Filter(NotOngoing, OngoingFirst(Seqs.Filter(keep, events))) == Seqs.Filter(NotOngoing, Seqs.Filter(keep, events))
  {
    var kept := Seqs.Filter(keep, events);
    OngoingFirstPermutation(kept);
    OngoingFirstOrdered(kept);
    OngoingFirstStable(kept);
    Seqs.FilterMembers(keep, events);
    forall e
      ensures e in OngoingFirst(kept) <==> e in events && keep(e)
    {
      assert e in OngoingFirst(kept) <==> e in multiset(OngoingFirst(kept));
      assert e in kept <==> e in multiset(kept);
    }
  }

  /** `raids` (flask_app.py:26-34): the events with raid bosses, ongoing ones first. */
  method RaidsView(events: seq<Event>) returns (shown: seq<Event>)
    ensures shown == OngoingFirst(Seqs.Filter(HasRaids, events))
    ensures forall e :: e in shown <==> e in events && HasRaids(e)
  {
    var raidEvents := Seqs.Filter(HasRaids, events);
    shown := SortedView(raidEvents);
    FilteredView(HasRaids, events);
  }

  /** `spawns` (flask_app.py:37-45): the events with wild spawns, ongoing ones first. */
  method SpawnsView(events: seq<Event>) returns (shown: seq<Event>)
    ensures shown == OngoingFirst(Seqs.Filter(HasSpawns, events))
    ensures forall e :: e in shown <==> e in events && HasSpawns(e)
  {
    var spawnEvents := Seqs.Filter(HasSpawns, events);
    shown := SortedView(spawnEvents);
    FilteredView(HasSpawns, events);
  }

  /** The answer of `api_event_detail`: the event, or the error object with status 404. */
  datatype Lookup = Found(event: Event) | NotFound(error: string, status: int)

  /** `api_event_detail` (flask_app.py:55-61): the event at `index` when it is a position of the
      list, the "Event not found" error with status 404 for any other integer. */
  function EventAt(events: seq<Event>, index: int): (r: Lookup)
    ensures r.Found? <==> 0 <= index < |events|
    ensures r.Found? ==> r.event == events[index]
    ensures r.NotFound? ==> r == NotFound("Event not found", 404)
  {
    if 0 <= index < |events| then Found(events[index]) else NotFound("Event not found", 404)
  }
}
