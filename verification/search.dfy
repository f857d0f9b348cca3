/** The search pages (`search_venues`, `search_artists`): which records a
    search term selects, and the response listed for them. Both handlers run
    the same steps over their own table, so the steps are written once over
    `Profile`, the part of a venue or an artist a search reads. */
module Search {
  import opened Wrappers
  import opened Seqs
  import opened Text
  import opened Records

  /** The searched columns of a venue or an artist, with its upcoming-show
      count (which depends only on the record, so it is computed up front). */
  datatype Profile = Profile(id: int, name: string, city: string, state: string, numUpcomingShows: nat)

  function VenueProfile(store: Store, v: Venue, now: Timestamp): Profile {
    Profile(v.id, v.name, v.city, v.state, |Upcoming(VenueShows(store, v.id), now)|)
  }

  function ArtistProfile(store: Store, a: Artist, now: Timestamp): Profile {
    Profile(a.id, a.name, a.city, a.state, |Upcoming(ArtistShows(store, a.id), now)|)
  }

  /** `Venue.query`: every venue, in table order. */
  function VenueProfiles(store: Store, now: Timestamp): (r: seq<Profile>)
    ensures |r| == |store.venues|
    ensures forall i :: 0 <= i < |r| ==> r[i] == VenueProfile(store, store.venues[i], now)
  {
    seq(|store.venues|, i requires 0 <= i < |store.venues| => VenueProfile(store, store.venues[i], now))
  }

  /** `Artist.query`: every artist, in table order. */
  function ArtistProfiles(store: Store, now: Timestamp): (r: seq<Profile>)
    ensures |r| == |store.artists|
    ensures forall i :: 0 <= i < |r| ==> r[i] == ArtistProfile(store, store.artists[i], now)
  {
    seq(|store.artists|, i requires 0 <= i < |store.artists| => ArtistProfile(store, store.artists[i], now))
  }

  datatype Column = NameColumn | CityColumn | StateColumn

  function ColumnOf(p: Profile, c: Column): string {
    match c
    case NameColumn => p.name
    case CityColumn => p.city
    case StateColumn => p.state
  }

  /** `Model.<column>.ilike(f"%{pattern}%")`. */
  predicate ColumnMatches(p: Profile, c: Column, pattern: string) {
    ILikeContains(ColumnOf(p, c), pattern)
  }

  /** Some record matches `pattern` in column `c`. */
  predicate AnyMatch(items: seq<Profile>, c: Column, pattern: string) {
    exists p :: p in items && ColumnMatches(p, c, pattern)
  }

  /** `r` holds exactly the records matching `pattern` in column `c`, each as
      often as `items` does. */
  ghost predicate SelectsColumn(r: seq<Profile>, items: seq<Profile>, c: Column, pattern: string) {
    forall p :: multiset(r)[p] == if ColumnMatches(p, c, pattern) then multiset(items)[p] else 0
  }

  /** `r` holds exactly the records whose city matches `cityPattern` and whose
      state matches `statePattern`, each as often as `items` does. */
  ghost predicate SelectsArea(r: seq<Profile>, items: seq<Profile>, cityPattern: string, statePattern: string) {
    forall p :: multiset(r)[p] ==
      if ColumnMatches(p, CityColumn, cityPattern) && ColumnMatches(p, StateColumn, statePattern)
      then multiset(items)[p] else 0
  }

  /** `search_term.split(',')[0].strip()`. */
  function CityPattern(term: string): string
    requires ',' in term
  {
    Strip(Split(term, ',')[0])
  }

  /** `search_term.split(',')[1].strip()`: the text between the first comma and
      the next one (or the end), trimmed. */
  function StatePattern(term: string): string
    requires ',' in term
  {
    Strip(Split(term, ',')[1])
  }

  /** The comma branch: when the term contains a comma, the query filtering
      city and state together, whose `.all()` is a list even when empty. */
  function AreaSearch(items: seq<Profile>, term: string): (r: Option<seq<Profile>>)
    ensures r.Some? <==> ',' in term
    ensures r.Some? ==> forall p :: p in r.value ==> p in items
    ensures r.Some? ==> SelectsArea(r.value, items, CityPattern(term), StatePattern(term))
  {
    if ',' in term then
      var city, state := CityPattern(term), StatePattern(term);
      Some(Filter(items, (p: Profile) => ColumnMatches(p, CityColumn, city) && ColumnMatches(p, StateColumn, state)))
    else None
  }

  /** `Model.query.filter(Model.<column>.ilike(f"%{term}%")).all()`. */
  function ColumnSearch(items: seq<Profile>, c: Column, term: string): (r: seq<Profile>)
    ensures |r| > 0 <==> AnyMatch(items, c, term)
    ensures forall p :: p in r ==> p in items
    ensures SelectsColumn(r, items, c, term)
  {
    Filter(items, (p: Profile) => ColumnMatches(p, c, term))
  }

  /** The `is None` branch: name matches if there are any, else city matches,
      else state matches, else nothing (`None`). */
  function Fallback(items: seq<Profile>, term: string): Option<seq<Profile>> {
    var byName := ColumnSearch(items, NameColumn, term);
    if |byName| > 0 then Some(byName)
    else
      var byCity := ColumnSearch(items, CityColumn, term);
      if |byCity| > 0 then Some(byCity)
      else
        var byState := ColumnSearch(items, StateColumn, term);
        if |byState| > 0 then Some(byState) else None
  }

  /** The records a search term selects. With a comma: the city/state
      conjunction, and nothing else is tried. Without one: the first of the
      name, city and state searches that finds anything; `None` when none does. */
  function Resolve(items: seq<Profile>, term: string): (r: Option<seq<Profile>>)
    ensures r.Some? ==> forall p :: p in r.value ==> p in items
    ensures ',' in term ==>
              r.Some? && SelectsArea(r.value, items, CityPattern(term), StatePattern(term))
    ensures ',' !in term && AnyMatch(items, NameColumn, term) ==>
              r.Some? && SelectsColumn(r.value, items, NameColumn, term)
    ensures ',' !in term && !AnyMatch(items, NameColumn, term) && AnyMatch(items, CityColumn, term) ==>
              r.Some? && SelectsColumn(r.value, items, CityColumn, term)
    ensures ',' !in term && !AnyMatch(items, NameColumn, term) && !AnyMatch(items, CityColumn, term)
              && AnyMatch(items, StateColumn, term) ==>
              r.Some? && SelectsColumn(r.value, items, StateColumn, term)
    ensures r.None? <==>
              ',' !in term && !AnyMatch(items, NameColumn, term) && !AnyMatch(items, CityColumn, term)
              && !AnyMatch(items, StateColumn, term)
  {
    var byArea := AreaSearch(items, term);
    if byArea.Some? then byArea else Fallback(items, term)
  }

  /** The rendered search results: `count` and the `data` entries. */
  datatype Response = Response(count: nat, data: seq<Summary>)

  /** The `{id, name, num_upcoming_shows}` entry of a selected record. */
  function Listed(p: Profile): Summary {
    Summary(p.id, p.name, p.numUpcomingShows)
  }

  function ListAll(ps: seq<Profile>): (r: seq<Summary>)
    ensures |r| == |ps|
    ensures forall i :: 0 <= i < |ps| ==> r[i] == Listed(ps[i])
  {
    seq(|ps|, i requires 0 <= i < |ps| => Listed(ps[i]))
  }

  /** The response dictionary: `count` is the number of selected records and
      `data` lists each of them once, sorted by name; nothing selected gives
      `count == 0` and no data. */
  function Respond(found: Option<seq<Profile>>): (r: Response)
    ensures r.count == |r.data|
    ensures SortedBy(r.data, NameLe)
    ensures found.None? ==> r.data == []
    ensures found.Some? ==> multiset(r.data) == multiset(ListAll(found.value))
  {
    NameLeIsTotalPreorder();
    match found
    case None => Response(0, [])
    case Some(ps) => Response(|ps|, Sort(ListAll(ps), NameLe))
  }

  /** `search_venues`. */
  function SearchVenues(store: Store, term: string, now: Timestamp): (r: Response)
    ensures r.count == |r.data|
    ensures SortedBy(r.data, NameLe)
    ensures forall h :: h in r.data ==> exists v :: v in store.venues && h == VenueSummary(store, v, now)
  {
    var items := VenueProfiles(store, now);
    var r := Respond(Resolve(items, term));
    ListedComeFrom(items, term);
    assert forall h :: h in r.data ==> exists v :: v in store.venues && h == VenueSummary(store, v, now) by {
      forall h | h in r.data ensures exists v :: v in store.venues && h == VenueSummary(store, v, now) {
        var p :| p in items && h == Listed(p);
        var i :| 0 <= i < |items| && items[i] == p;
        assert store.venues[i] in store.venues;
      }
    }
    r
  }

  /** `search_artists`. */
  function SearchArtists(store: Store, term: string, now: Timestamp): (r: Response)
    ensures r.count == |r.data|
    ensures SortedBy(r.data, NameLe)
    ensures forall h :: h in r.data ==> exists a :: a in store.artists && h == ArtistSummary(store, a, now)
  {
    var items := ArtistProfiles(store, now);
    var r := Respond(Resolve(items, term));
    ListedComeFrom(items, term);
    assert forall h :: h in r.data ==> exists a :: a in store.artists && h == ArtistSummary(store, a, now) by {
      forall h | h in r.data ensures exists a :: a in store.artists && h == ArtistSummary(store, a, now) {
        var p :| p in items && h == Listed(p);
        var i :| 0 <= i < |items| && items[i] == p;
        assert store.artists[i] in store.artists;
      }
    }
    r
  }

  /** Every listed entry is the entry of a record the search looked at. */
  lemma ListedComeFrom(items: seq<Profile>, term: string)
    ensures forall h :: h in Respond(Resolve(items, term)).data ==> exists p :: p in items && h == Listed(p)
  {
    var found := Resolve(items, term);
    var data := Respond(found).data;
    forall h | h in data ensures exists p :: p in items && h == Listed(p) {
      assert h in multiset(data);
      var all := ListAll(found.value);
      assert h in all;
      var k :| 0 <= k < |all| && all[k] == h;
      assert found.value[k] in found.value;
    }
  }

  /** With a comma in the term, a city/state search that finds nothing is the
      answer: `count` is 0 and `data` is empty, even when names would match. */
  lemma CommaTermNeverFallsBack(items: seq<Profile>, term: string)
    requires ',' in term
    requires forall p :: p in items ==>
               !(ColumnMatches(p, CityColumn, CityPattern(term)) && ColumnMatches(p, StateColumn, StatePattern(term)))
    ensures Respond(Resolve(items, term)) == Response(0, [])
  {
  }

  /** The empty term has no comma and matches every name, so it lists every
      record whenever there is one. */
  lemma EmptyTermSelectsAll(items: seq<Profile>)
    requires |items| > 0
    ensures Resolve(items, "") == Some(items)
  {
    forall p | p in items ensures ColumnMatches(p, NameColumn, "") {
      ILikeContainsIff(p.name, "");
    }
    assert AnyMatch(items, NameColumn, "") by {
      assert items[0] in items;
    }
    FilterKeepsAll(items, (p: Profile) => ColumnMatches(p, NameColumn, ""));
  }

  /** The city pattern is the text before the first comma and the state
      pattern the text after it up to the next comma, both trimmed. */
  lemma PatternsOfCommaTerm(term: string)
    requires ',' in term
    ensures var i := IndexOf(term, ',');
            var rest := term[i + 1..];
            && CityPattern(term) == Strip(term[..i])
            && StatePattern(term) == Strip(if ',' in rest then rest[..IndexOf(rest, ',')] else rest)
  {
    var i := IndexOf(term, ',');
    var rest := term[i + 1..];
    var pieces := Split(term, ',');
    assert pieces == [term[..i]] + Split(rest, ',');
    if ',' in rest {
      assert Split(rest, ',')[0] == rest[..IndexOf(rest, ',')];
    } else {
      assert Split(rest, ',') == [rest];
    }
  }

  /** Anything after a second comma is ignored. */
  lemma LaterPiecesIgnored(term: string, more: string)
    requires ',' in term
    ensures ',' in term + [','] + more
    ensures CityPattern(term + [','] + more) == CityPattern(term)
    ensures StatePattern(term + [','] + more) == StatePattern(term)
  {
    var longer := term + [','] + more;
    assert longer[|term|] == ',';
    SplitAppend(term, more, ',');
    assert Split(longer, ',')[0] == Split(term, ',')[0];
    assert Split(longer, ',')[1] == Split(term, ',')[1];
  }
}
