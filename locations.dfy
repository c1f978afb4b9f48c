/** The Locations page: drop-off, dispense and pop-up sites, narrowed by a type
    button and a search box, drawn as coloured map markers. */
module Locations {
  import opened Text
  import opened Sequences
  import opened Styles

  /** An entry of `locations.json`. The JSON field `type` is `kind` here. */
  datatype Location = Location(
    id: string,
    name: string,
    kind: string,
    address: string,
    city: string,
    hours: string,
    accepted: string,
    rules: string,
    lat: real,
    lng: real,
    active: bool)

  predicate TypeMatches(loc: Location, typeFilter: string)
  {
    typeFilter == "all" || loc.kind == typeFilter
  }

  /** The search: ignored when blank, otherwise a case-insensitive substring
      test against the name or the address. */
  predicate SearchMatches(loc: Location, searchTerm: string)
  {
    Trim(searchTerm) == []
    || Contains(Lower(loc.name), Lower(searchTerm))
    || Contains(Lower(loc.address), Lower(searchTerm))
  }

  predicate Shown(loc: Location, typeFilter: string, searchTerm: string)
  {
    TypeMatches(loc, typeFilter) && SearchMatches(loc, searchTerm)
  }

  /** The filter effect: a type filter unless "all", then a search filter
      unless the search box is blank. */
  function FilterLocations(locations: seq<Location>, typeFilter: string, searchTerm: string): seq<Location>
  {
    var byType :=
      if typeFilter != "all" then Filter(locations, (loc: Location) => loc.kind == typeFilter)
      else locations;
    if Trim(searchTerm) != [] then
      Filter(byType, (loc: Location) =>
        Contains(Lower(loc.name), Lower(searchTerm)) || Contains(Lower(loc.address), Lower(searchTerm)))
    else byType
  }

  /** The shown locations are exactly those passing both tests, in order. */
  lemma FilterLocationsExact(locations: seq<Location>, typeFilter: string, searchTerm: string)
    ensures FilterLocations(locations, typeFilter, searchTerm)
         == Filter(locations, loc => Shown(loc, typeFilter, searchTerm))
    ensures IsSubsequence(FilterLocations(locations, typeFilter, searchTerm), locations)
  {
    var shown := (loc: Location) => Shown(loc, typeFilter, searchTerm);
    var byKind := (loc: Location) => loc.kind == typeFilter;
    var bySearch := (loc: Location) =>
      Contains(Lower(loc.name), Lower(searchTerm)) || Contains(Lower(loc.address), Lower(searchTerm));
    if typeFilter != "all" {
      if Trim(searchTerm) != [] {
        FilterCompose(locations, byKind, bySearch, shown);
      } else {
        FilterExt(locations, byKind, shown);
      }
    } else {
      if Trim(searchTerm) != [] {
        FilterExt(locations, bySearch, shown);
      } else {
        FilterAll(locations, shown);
      }
    }
    FilterSubsequence(locations, shown);
  }

  /** A location listed twice is shown twice: every copy that passes stays. */
  lemma FilterLocationsCounts(locations: seq<Location>, typeFilter: string, searchTerm: string)
    ensures forall loc :: multiset(FilterLocations(locations, typeFilter, searchTerm))[loc]
                       == if Shown(loc, typeFilter, searchTerm) then multiset(locations)[loc] else 0
  {
    FilterLocationsExact(locations, typeFilter, searchTerm);
    FilterCounts(locations, loc => Shown(loc, typeFilter, searchTerm));
  }

  /** Filtering the shown list again with the same settings changes nothing. */
  lemma FilterLocationsIdempotent(locations: seq<Location>, typeFilter: string, searchTerm: string)
    ensures var shown := FilterLocations(locations, typeFilter, searchTerm);
      FilterLocations(shown, typeFilter, searchTerm) == shown
  {
    var shown := FilterLocations(locations, typeFilter, searchTerm);
    FilterLocationsExact(locations, typeFilter, searchTerm);
    FilterLocationsExact(shown, typeFilter, searchTerm);
    FilterIdempotent(locations, loc => Shown(loc, typeFilter, searchTerm));
  }

  /** The page's initial state ("all", empty search) shows every location. */
  lemma InitialFilterShowsAll(locations: seq<Location>)
    ensures FilterLocations(locations, "all", "") == locations
  {
    assert Trim("") == [];
  }

  /** The marker fill colour: green for drop-off, orange for dispense, purple
      otherwise. */
  function MarkerColor(kind: string): (color: string)
    ensures color in {"#10b981", "#f97316", "#a855f7"}
    ensures color == "#10b981" <==> kind == "dropoff"
    ensures color == "#f97316" <==> kind == "dispense"
  {
    if kind == "dropoff" then "#10b981" else if kind == "dispense" then "#f97316" else "#a855f7"
  }

  /** The badge classes of a location type; no classes for an unknown type.
      `Badge("accent-green")` is "text-accent-green border-accent-green
      bg-accent-green/10", and likewise for orange and purple. */
  function TypeColor(kind: string): (classes: string)
    ensures classes == "" <==> kind !in {"dropoff", "dispense", "popup"}
  {
    match kind
    case "dropoff" => Badge("accent-green")
    case "dispense" => Badge("accent-orange")
    case "popup" => Badge("accent-purple")
    case _ => ""
  }

  /** The three known types get three different badges. */
  lemma TypeColorDistinct(a: string, b: string)
    requires a in {"dropoff", "dispense", "popup"} && b in {"dropoff", "dispense", "popup"}
    requires a != b
    ensures TypeColor(a) != TypeColor(b)
  {
    var ta := if a == "dropoff" then "accent-green" else if a == "dispense" then "accent-orange" else "accent-purple";
    var tb := if b == "dropoff" then "accent-green" else if b == "dispense" then "accent-orange" else "accent-purple";
    assert ta[7] != tb[7];
    BadgeInjective(ta, tb);
  }
}
