/** The home page's "Upcoming events": the events starting after now, earliest
    first, at most three of them. */
module IndexPage {
  import opened Sequences
  import opened Events

  /** `new Date(e.start) > new Date()`, with the clock reading as a parameter. */
  predicate IsFuture(e: Event, nowMillis: int)
  {
    StartMillis(e) > nowMillis
  }

  /** `data.filter(future).sort(byStart).slice(0, 3)`. */
  function Upcoming(events: seq<Event>, nowMillis: int): seq<Event>
  {
    Take(SortBy(Filter(events, e => IsFuture(e, nowMillis)), StartMillis), 3)
  }

  /** The selection: future events of the input, sorted by start, as many as
      there are future events up to three. */
  lemma UpcomingSelection(events: seq<Event>, nowMillis: int)
    ensures var sel := Upcoming(events, nowMillis);
      && (forall i :: 0 <= i < |sel| ==> IsFuture(sel[i], nowMillis) && sel[i] in events)
      && SortedBy(sel, StartMillis)
      && |sel| == Min(3, |Filter(events, e => IsFuture(e, nowMillis))|)
  {
    var future := Filter(events, e => IsFuture(e, nowMillis));
    var sorted := SortBy(future, StartMillis);
    var sel := Upcoming(events, nowMillis);
    forall i | 0 <= i < |sel| ensures IsFuture(sel[i], nowMillis) && sel[i] in events {
      assert sel[i] == sorted[i];
      assert sorted[i] in multiset(future);
    }
    SortedPrefix(sorted, StartMillis, |sel|);
    assert sel == sorted[..|sel|];
  }

  /** No event is shown more often than the input lists it. */
  lemma UpcomingCounts(events: seq<Event>, nowMillis: int)
    ensures multiset(Upcoming(events, nowMillis)) <= multiset(events)
  {
    var future := Filter(events, e => IsFuture(e, nowMillis));
    var sorted := SortBy(future, StartMillis);
    PrefixSubMultiset(sorted, Min(3, |sorted|));
    FilterSubMultiset(events, e => IsFuture(e, nowMillis));
  }

  /** Ties are settled by the input order: among future events with the same
      start, the selection holds the ones listed first. */
  lemma UpcomingTies(events: seq<Event>, nowMillis: int, startMillis: int)
    ensures IsPrefix(WithKey(Upcoming(events, nowMillis), StartMillis, startMillis),
                     WithKey(Filter(events, e => IsFuture(e, nowMillis)), StartMillis, startMillis))
  {
    var future := Filter(events, e => IsFuture(e, nowMillis));
    var sorted := SortBy(future, StartMillis);
    SortByStable(future, StartMillis, startMillis);
    WithKeyPrefix(sorted, Min(3, |sorted|), StartMillis, startMillis);
  }

  /** The selection holds the earliest future events: every future event left
      out starts no earlier than every selected one. */
  lemma UpcomingEarliest(events: seq<Event>, nowMillis: int, x: Event, y: Event)
    requires x in Upcoming(events, nowMillis)
    requires y in events && IsFuture(y, nowMillis) && y !in Upcoming(events, nowMillis)
    ensures StartMillis(x) <= StartMillis(y)
  {
    var future := Filter(events, e => IsFuture(e, nowMillis));
    var sorted := SortBy(future, StartMillis);
    var sel := Upcoming(events, nowMillis);
    assert y in multiset(sorted);
    var k :| 0 <= k < |sorted| && sorted[k] == y;
    var i :| 0 <= i < |sel| && sel[i] == x;
    assert sorted[i] == x;
    if k < |sel| {
      assert sel[k] == y;
    }
  }
}
