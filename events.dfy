/** The Events page: events are loaded sorted by start time, narrowed by an
    event-type button and a city search box, and each can be exported as an
    iCalendar file. */
module Events {
  import opened Wrappers
  import opened Text
  import opened DateTimes
  import opened Sequences
  import opened IcsGenerator

  /** An entry of `events.json`, with `start` and `end` already parsed. The
      JSON field `type` is `kind` here. */
  datatype Event = Event(
    id: string,
    title: string,
    kind: string,
    start: DateTime,
    end: DateTime,
    venue: string,
    address: string,
    city: string,
    state: string,
    description: string,
    registrationUrl: Option<string>)

  /** `new Date(e.start).getTime()`: the sort key. */
  function StartMillis(e: Event): int
  {
    EpochMillis(e.start)
  }

  /** The fetched list sorted by start time, ascending. */
  function Load(data: seq<Event>): (r: seq<Event>)
    ensures SortedBy(r, StartMillis)
    ensures multiset(r) == multiset(data)
  {
    SortBy(data, StartMillis)
  }

  /** For events with valid start dates, the loaded order is the calendar
      order: no event is listed after one that starts later. */
  lemma LoadChronological(data: seq<Event>)
    requires forall k :: 0 <= k < |data| ==> Valid(data[k].start)
    ensures var r := Load(data);
      forall i, j :: 0 <= i < j < |r| ==> !Before(r[j].start, r[i].start)
  {
    var r := Load(data);
    forall i, j | 0 <= i < j < |r| ensures !Before(r[j].start, r[i].start) {
      assert r[i] in multiset(data) && r[j] in multiset(data);
      EpochOrder(r[j].start, r[i].start);
    }
  }

  /** Events that start at the same instant keep their order in the fetched
      list. */
  lemma LoadKeepsTies(data: seq<Event>, startMillis: int)
    ensures WithKey(Load(data), StartMillis, startMillis) == WithKey(data, StartMillis, startMillis)
  {
    SortByStable(data, StartMillis, startMillis);
  }

  predicate TypeMatches(e: Event, typeFilter: string)
  {
    typeFilter == "All" || e.kind == typeFilter
  }

  /** The city search: ignored when blank, otherwise a case-insensitive
      substring test with the untrimmed search text. */
  predicate CityMatches(e: Event, cityFilter: string)
  {
    Trim(cityFilter) == [] || Contains(Lower(e.city), Lower(cityFilter))
  }

  predicate Shown(e: Event, typeFilter: string, cityFilter: string)
  {
    TypeMatches(e, typeFilter) && CityMatches(e, cityFilter)
  }

  /** The filter effect: a type filter unless "All", then a city filter unless
      the search box is blank. */
  function FilterEvents(events: seq<Event>, typeFilter: string, cityFilter: string): seq<Event>
  {
    var byType :=
      if typeFilter != "All" then Filter(events, (e: Event) => e.kind == typeFilter) else events;
    if Trim(cityFilter) != [] then
      Filter(byType, (e: Event) => Contains(Lower(e.city), Lower(cityFilter)))
    else byType
  }

  /** The shown events are exactly the events passing both tests, in their
      loaded order. */
  lemma FilterEventsExact(events: seq<Event>, typeFilter: string, cityFilter: string)
    ensures FilterEvents(events, typeFilter, cityFilter)
         == Filter(events, e => Shown(e, typeFilter, cityFilter))
    ensures IsSubsequence(FilterEvents(events, typeFilter, cityFilter), events)
  {
    var shown := (e: Event) => Shown(e, typeFilter, cityFilter);
    var byKind := (e: Event) => e.kind == typeFilter;
    var byCity := (e: Event) => Contains(Lower(e.city), Lower(cityFilter));
    var byType := if typeFilter != "All" then Filter(events, byKind) else events;
    if typeFilter != "All" {
      if Trim(cityFilter) != [] {
        FilterCompose(events, byKind, byCity, shown);
      } else {
        FilterExt(events, byKind, shown);
      }
    } else {
      if Trim(cityFilter) != [] {
        FilterExt(events, byCity, shown);
      } else {
        FilterAll(events, shown);
      }
    }
    FilterSubsequence(events, shown);
  }

  /** An event listed twice is shown twice: every copy that passes stays. */
  lemma FilterEventsCounts(events: seq<Event>, typeFilter: string, cityFilter: string)
    ensures forall e :: multiset(FilterEvents(events, typeFilter, cityFilter))[e]
                     == if Shown(e, typeFilter, cityFilter) then multiset(events)[e] else 0
  {
    FilterEventsExact(events, typeFilter, cityFilter);
    FilterCounts(events, e => Shown(e, typeFilter, cityFilter));
  }

  /** The page's initial state ("All", empty search) shows every event. */
  lemma InitialFilterShowsAll(events: seq<Event>)
    ensures FilterEvents(events, "All", "") == events
  {
    assert Trim("") == [];
  }

  /** A search of only whitespace filters nothing by city. */
  lemma BlankCitySearch(events: seq<Event>, typeFilter: string, cityFilter: string)
    requires Blank(cityFilter)
    ensures FilterEvents(events, typeFilter, cityFilter) == FilterEvents(events, typeFilter, "")
  {
    TrimEmptyIffBlank(cityFilter);
    assert Trim("") == [];
  }

  /** The city search ignores the case of what is typed: two searches that
      differ only in the case of letters show the same events. */
  lemma CitySearchIgnoresCase(events: seq<Event>, typeFilter: string, a: string, b: string)
    requires |a| == |b| && forall i :: 0 <= i < |a| ==> SameIgnoringCase(a[i], b[i])
    ensures FilterEvents(events, typeFilter, a) == FilterEvents(events, typeFilter, b)
  {
    LowerEqIff(a, b);
    LowerBlank(a);
    LowerBlank(b);
    TrimEmptyIffBlank(a);
    TrimEmptyIffBlank(b);
    var byType :=
      if typeFilter != "All" then Filter(events, (e: Event) => e.kind == typeFilter) else events;
    FilterExt(byType, (e: Event) => Contains(Lower(e.city), Lower(a)),
                      (e: Event) => Contains(Lower(e.city), Lower(b)));
  }

  /** The event passed to `downloadICS`. */
  function IcsArgs(e: Event): IcsEvent
  {
    IcsEvent(
      e.title,
      e.description,
      e.venue + ", " + e.address + ", " + e.city + ", " + e.state,
      e.start,
      e.end,
      e.registrationUrl)
  }

  /** The download name. */
  function IcsFilename(e: Event): (name: string)
    ensures |name| == |e.id| + 4
    ensures name[..|e.id|] == e.id && name[|e.id|..] == ".ics"
  {
    e.id + ".ics"
  }

  /** What the exported file says about the event: its dates and title, and
      a URL line exactly when a non-empty registration URL exists. */
  lemma IcsExport(e: Event, stamp: DateTime, nowMillis: nat)
    ensures var lines := IcsLines(IcsArgs(e), stamp, nowMillis);
      && lines[6] == "DTSTART:" + FormatDate(e.start)
      && lines[7] == "DTEND:" + FormatDate(e.end)
      && lines[9] == "SUMMARY:" + EscapeText(e.title)
      && lines[10] == "DESCRIPTION:" + EscapeText(e.description)
      && (|lines| == 17 <==> e.registrationUrl.Some? && e.registrationUrl.value != "")
  {
    IcsLinesStructure(IcsArgs(e), stamp, nowMillis);
    IcsLinesFields(IcsArgs(e), stamp, nowMillis);
  }

  /** The exported LOCATION line: venue, address, city and state, each
      escaped, joined by escaped commas. */
  lemma IcsExportLocation(e: Event, stamp: DateTime, nowMillis: nat)
    ensures IcsLines(IcsArgs(e), stamp, nowMillis)[11]
         == "LOCATION:" + (EscapeText(e.venue) + "\\, " + EscapeText(e.address) + "\\, "
                           + EscapeText(e.city) + "\\, " + EscapeText(e.state))
  {
    IcsLinesFields(IcsArgs(e), stamp, nowMillis);
    EscapeJoined(e.venue, e.address, e.city, e.state);
  }

  /** Escaping four parts joined by ", " escapes each part and each comma. */
  lemma EscapeJoined(a: string, b: string, c: string, d: string)
    ensures EscapeText(a + ", " + b + ", " + c + ", " + d)
         == EscapeText(a) + "\\, " + EscapeText(b) + "\\, " + EscapeText(c) + "\\, " + EscapeText(d)
  {
    assert EscapeText(", ") == "\\, " by {
      EscapeTextConcat(",", " ");
    }
    EscapeTextConcat(a, ", ");
    EscapeTextConcat(a + ", ", b);
    EscapeTextConcat(a + ", " + b, ", ");
    EscapeTextConcat(a + ", " + b + ", ", c);
    EscapeTextConcat(a + ", " + b + ", " + c, ", ");
    EscapeTextConcat(a + ", " + b + ", " + c + ", ", d);
  }
}
