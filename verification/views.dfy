/** The read-only pages: venues grouped by area, the venue and artist detail
    pages, the shows and artists listings, and the latest additions shown on
    the home page. Each is a projection of the store at one moment `now`. */
module Views {
  import opened Seqs
  import opened Text
  import opened Records
  import opened Forms
  import opened Wrappers

  // ---------------------------------------------------------------------
  // Areas (`venues`)
  // ---------------------------------------------------------------------

  /** One `{city, state, venues}` group of the venues page. */
  datatype Area = Area(city: string, state: string, venues: seq<Summary>)

  /** `[v for v in all_venues if v.city == city and v.state == state]`. */
  function VenuesAt(store: Store, city: string, state: string): (r: seq<Venue>)
    ensures forall v :: v in r <==> v in store.venues && v.city == city && v.state == state
  {
    Filter(store.venues, (v: Venue) => v.city == city && v.state == state)
  }

  function Summaries(store: Store, vs: seq<Venue>, now: Timestamp): (r: seq<Summary>)
    ensures |r| == |vs|
    ensures forall i :: 0 <= i < |vs| ==> r[i] == VenueSummary(store, vs[i], now)
  {
    seq(|vs|, i requires 0 <= i < |vs| => VenueSummary(store, vs[i], now))
  }

  /** The group for one city and state: its venues' entries sorted by name.
      What it holds is stated by `AreaOfContents`, kept apart so that the
      many uses of `AreaOf` below do not carry it. */
  function AreaOf(store: Store, now: Timestamp, city: string, state: string): (r: Area)
    ensures r.city == city && r.state == state
  {
    NameLeIsTotalPreorder();
    Area(city, state, Sort(Summaries(store, VenuesAt(store, city, state), now), NameLe))
  }

  /** A group holds one entry per venue of its city and state, sorted by
      name. */
  lemma AreaOfContents(store: Store, now: Timestamp, city: string, state: string)
    ensures var a := AreaOf(store, now, city, state);
            && |a.venues| == |VenuesAt(store, city, state)|
            && SortedBy(a.venues, NameLe)
            && multiset(a.venues) == multiset(Summaries(store, VenuesAt(store, city, state), now))
  {
    NameLeIsTotalPreorder();
  }

  /** A city has a group in a state when some venue lies in both. */
  predicate Occupied(store: Store, city: string, state: string) {
    |VenuesAt(store, city, state)| > 0
  }

  /** The inner loop `for city in cities` for one state: a group for every
      city that has venues in that state. */
  function StateRow(store: Store, now: Timestamp, state: string, cities: seq<string>): (r: seq<Area>)
    ensures forall a :: a in r ==>
              a == AreaOf(store, now, a.city, state) && a.city in cities && Occupied(store, a.city, state)
    ensures forall c :: c in cities && Occupied(store, c, state) ==> AreaOf(store, now, c, state) in r
    decreases |cities|
  {
    if |cities| == 0 then []
    else
      var rest := StateRow(store, now, state, cities[1..]);
      var r := if Occupied(store, cities[0], state) then [AreaOf(store, now, cities[0], state)] + rest else rest;
      StateRowStep(store, now, state, cities, rest, r);
      r
  }

  /** One step of `StateRow`: a group for the first city, when it has venues,
      in front of the groups for the rest. */
  lemma StateRowStep(store: Store, now: Timestamp, state: string, cities: seq<string>, rest: seq<Area>, r: seq<Area>)
    requires |cities| > 0
    requires forall a :: a in rest ==>
               a == AreaOf(store, now, a.city, state) && a.city in cities[1..] && Occupied(store, a.city, state)
    requires forall c :: c in cities[1..] && Occupied(store, c, state) ==> AreaOf(store, now, c, state) in rest
    requires r == if Occupied(store, cities[0], state) then [AreaOf(store, now, cities[0], state)] + rest else rest
    ensures forall a :: a in r ==>
              a == AreaOf(store, now, a.city, state) && a.city in cities && Occupied(store, a.city, state)
    ensures forall c :: c in cities && Occupied(store, c, state) ==> AreaOf(store, now, c, state) in r
  {
    TailIn(cities);
    forall c | c in cities && Occupied(store, c, state)
      ensures AreaOf(store, now, c, state) in r
    {
      if c != cities[0] {
        assert c in cities[1..];
      }
    }
  }

  /** Distinct cities give distinct groups. */
  lemma {:induction false} StateRowDistinct(store: Store, now: Timestamp, state: string, cities: seq<string>)
    requires Distinct(cities)
    ensures Distinct(StateRow(store, now, state, cities))
    decreases |cities|
  {
    if |cities| > 0 {
      var rest := StateRow(store, now, state, cities[1..]);
      assert Distinct(cities[1..]);
      StateRowDistinct(store, now, state, cities[1..]);
      if Occupied(store, cities[0], state) {
        var a := AreaOf(store, now, cities[0], state);
        assert cities[0] !in cities[1..];
        DistinctAppend([a], rest);
      }
    }
  }

  /** The two nested loops: a group for every state and city that have
      venues together, in loop order. */
  function AreaRows(store: Store, now: Timestamp, states: seq<string>, cities: seq<string>): (r: seq<Area>)
    ensures forall a :: a in r ==>
              a == AreaOf(store, now, a.city, a.state) && a.state in states && a.city in cities && Occupied(store, a.city, a.state)
    ensures forall s, c :: s in states && c in cities && Occupied(store, c, s) ==> AreaOf(store, now, c, s) in r
    decreases |states|
  {
    if |states| == 0 then []
    else StateRow(store, now, states[0], cities) + AreaRows(store, now, states[1..], cities)
  }

  /** Distinct states and cities give distinct groups. */
  lemma {:induction false} AreaRowsDistinct(store: Store, now: Timestamp, states: seq<string>, cities: seq<string>)
    requires Distinct(states) && Distinct(cities)
    ensures Distinct(AreaRows(store, now, states, cities))
    decreases |states|
  {
    if |states| > 0 {
      var row := StateRow(store, now, states[0], cities);
      var rest := AreaRows(store, now, states[1..], cities);
      assert Distinct(states[1..]);
      assert states[0] !in states[1..];
      StateRowDistinct(store, now, states[0], cities);
      AreaRowsDistinct(store, now, states[1..], cities);
      forall x | x in row ensures x !in rest {
        assert x.state == states[0] && x.state !in states[1..];
      }
      DistinctAppend(row, rest);
    }
  }

  /** `key=lambda x: (x['state'], x['city'])`: by state, then by city. */
  predicate AreaLe(x: Area, y: Area) {
    if x.state == y.state then StrLe(x.city, y.city) else StrLe(x.state, y.state)
  }

  lemma AreaLeIsTotalPreorder()
    ensures TotalPreorder(AreaLe)
  {
    forall x: Area, y: Area ensures AreaLe(x, y) || AreaLe(y, x) {
      StrLeTotal(x.city, y.city);
      StrLeTotal(x.state, y.state);
    }
    forall x: Area, y: Area, z: Area | AreaLe(x, y) && AreaLe(y, z) ensures AreaLe(x, z) {
      if x.state == y.state && y.state == z.state {
        StrLeTransitive(x.city, y.city, z.city);
      } else if x.state != y.state && y.state != z.state {
        StrLeTransitive(x.state, y.state, z.state);
        if x.state == z.state {
          StrLeAntisymmetric(x.state, y.state);
        }
      }
    }
  }

  /** Areas ordered both ways have the same state and city. */
  lemma AreaLeAntisymmetric(x: Area, y: Area)
    requires AreaLe(x, y) && AreaLe(y, x)
    ensures x.state == y.state && x.city == y.city
  {
    if x.state == y.state {
      StrLeAntisymmetric(x.city, y.city);
    } else {
      StrLeAntisymmetric(x.state, y.state);
    }
  }

  function SortAreas(rows: seq<Area>): (r: seq<Area>)
    ensures SortedBy(r, AreaLe)
    ensures multiset(r) == multiset(rows)
  {
    AreaLeIsTotalPreorder();
    Sort(rows, AreaLe)
  }

  function States(store: Store): seq<string> {
    seq(|store.venues|, i requires 0 <= i < |store.venues| => store.venues[i].state)
  }

  function Cities(store: Store): seq<string> {
    seq(|store.venues|, i requires 0 <= i < |store.venues| => store.venues[i].city)
  }

  /** `venues()`: one group per city and state some venue has, holding
      exactly the entries of the venues there sorted by name, the groups
      sorted by state and then city with no pair repeated. Python iterates
      the sets of states and cities in an unspecified order; here they are
      taken in first-seen order (see `AreasIgnoreIterationOrder`). */
  function Areas(store: Store, now: Timestamp): (r: seq<Area>)
    ensures forall a :: a in r ==> |a.venues| > 0 && SortedBy(a.venues, NameLe)
    ensures forall a :: a in r ==>
              multiset(a.venues) == multiset(Summaries(store, VenuesAt(store, a.city, a.state), now))
    ensures forall v :: v in store.venues ==> AreaOf(store, now, v.city, v.state) in r
    ensures SortedBy(r, AreaLe)
    ensures forall i, j :: 0 <= i < j < |r| ==> r[i].state != r[j].state || r[i].city != r[j].city
  {
    AreasFacts(store, now);
    SortAreas(AreaRows(store, now, Dedup(States(store)), Dedup(Cities(store))))
  }

  lemma AreasFacts(store: Store, now: Timestamp)
    ensures var r := SortAreas(AreaRows(store, now, Dedup(States(store)), Dedup(Cities(store))));
            && (forall a :: a in r ==> |a.venues| > 0 && SortedBy(a.venues, NameLe))
            && (forall a :: a in r ==>
                  multiset(a.venues) == multiset(Summaries(store, VenuesAt(store, a.city, a.state), now)))
            && (forall v :: v in store.venues ==> AreaOf(store, now, v.city, v.state) in r)
            && (forall i, j :: 0 <= i < j < |r| ==> r[i].state != r[j].state || r[i].city != r[j].city)
  {
    var states, cities := Dedup(States(store)), Dedup(Cities(store));
    var r := SortAreas(AreaRows(store, now, states, cities));
    SortedRows(store, now, states, cities);
    forall v | v in store.venues ensures AreaOf(store, now, v.city, v.state) in r {
      VenueIsListed(store, v);
    }
    forall a | a in r
      ensures |a.venues| > 0 && SortedBy(a.venues, NameLe)
      ensures multiset(a.venues) == multiset(Summaries(store, VenuesAt(store, a.city, a.state), now))
    {
      AreaOfContents(store, now, a.city, a.state);
    }
  }

  /** A venue's state and city are among those iterated, and its own pair has
      venues. */
  lemma VenueIsListed(store: Store, v: Venue)
    requires v in store.venues
    ensures v.state in States(store) && v.city in Cities(store) && Occupied(store, v.city, v.state)
  {
    var i :| 0 <= i < |store.venues| && store.venues[i] == v;
    assert States(store)[i] == v.state && Cities(store)[i] == v.city;
    assert v in VenuesAt(store, v.city, v.state);
  }

  /** What sorting the groups keeps: each is the group of its own pair, every
      occupied pair has one, and no pair has two. */
  lemma SortedRows(store: Store, now: Timestamp, states: seq<string>, cities: seq<string>)
    requires Distinct(states) && Distinct(cities)
    ensures forall a :: a in SortAreas(AreaRows(store, now, states, cities)) ==>
              a == AreaOf(store, now, a.city, a.state) && Occupied(store, a.city, a.state)
              && a.state in states && a.city in cities
    ensures forall s, c :: s in states && c in cities && Occupied(store, c, s) ==>
              AreaOf(store, now, c, s) in SortAreas(AreaRows(store, now, states, cities))
    ensures Distinct(SortAreas(AreaRows(store, now, states, cities)))
    ensures var r := SortAreas(AreaRows(store, now, states, cities));
            forall i, j :: 0 <= i < j < |r| ==> r[i].state != r[j].state || r[i].city != r[j].city
  {
    var rows := AreaRows(store, now, states, cities);
    var r := SortAreas(rows);
    forall a ensures a in r <==> a in rows {
      assert a in r <==> a in multiset(r);
    }
    AreaRowsDistinct(store, now, states, cities);
    DistinctPermutation(rows, r);
    forall i, j | 0 <= i < j < |r| ensures r[i].state != r[j].state || r[i].city != r[j].city {
      assert r[i] in rows && r[j] in rows;
    }
  }

  /** Every venue is listed in exactly one group. A group lists the venue's
      entry exactly when it has the venue's city and state; there is such a
      group; and, since ids are unique, no two groups list the entry. */
  lemma VenueInExactlyOneArea(store: Store, now: Timestamp, v: Venue)
    requires WellFormed(store)
    requires v in store.venues
    ensures exists k :: 0 <= k < |Areas(store, now)| && Areas(store, now)[k].city == v.city && Areas(store, now)[k].state == v.state
    ensures forall i :: 0 <= i < |Areas(store, now)| ==>
              (VenueSummary(store, v, now) in Areas(store, now)[i].venues <==>
               Areas(store, now)[i].city == v.city && Areas(store, now)[i].state == v.state)
    ensures forall i, j :: 0 <= i < j < |Areas(store, now)| ==>
              !(VenueSummary(store, v, now) in Areas(store, now)[i].venues && VenueSummary(store, v, now) in Areas(store, now)[j].venues)
  {
    var r := Areas(store, now);
    var a := AreaOf(store, now, v.city, v.state);
    var k :| 0 <= k < |r| && r[k] == a;
    AreaListsVenue(store, now, v);
    var e := VenueSummary(store, v, now);
    forall i | 0 <= i < |r| && e in r[i].venues
      ensures r[i].city == v.city && r[i].state == v.state
    {
      assert r[i] in r;
      EntryOfGroup(store, now, v, r[i].city, r[i].state, r[i].venues);
    }
    forall i | 0 <= i < |r| && r[i].city == v.city && r[i].state == v.state
      ensures e in r[i].venues
    {
      assert i == k;
    }
  }

  /** Only a venue of a city and state has its entry among that city and
      state's entries: the entry carries the venue's id, and ids are unique. */
  lemma EntryOfGroup(store: Store, now: Timestamp, v: Venue, city: string, state: string, entries: seq<Summary>)
    requires WellFormed(store) && v in store.venues
    requires multiset(entries) == multiset(Summaries(store, VenuesAt(store, city, state), now))
    requires VenueSummary(store, v, now) in entries
    ensures v.city == city && v.state == state
  {
    var vs := VenuesAt(store, city, state);
    var w := EntryFrom(store, now, vs, VenueSummary(store, v, now), entries);
    SameIdSameVenue(store, v, w);
  }

  /** An entry of a permutation of some venues' entries names one of those
      venues. */
  lemma EntryFrom(store: Store, now: Timestamp, vs: seq<Venue>, e: Summary, entries: seq<Summary>) returns (w: Venue)
    requires multiset(entries) == multiset(Summaries(store, vs, now))
    requires e in entries
    ensures w in vs && VenueSummary(store, w, now) == e
  {
    var ss := Summaries(store, vs, now);
    assert e in multiset(entries);
    assert e in ss;
    var j :| 0 <= j < |vs| && ss[j] == e;
    w := vs[j];
  }

  /** A venue's entry is in the group of its own city and state. */
  lemma AreaListsVenue(store: Store, now: Timestamp, v: Venue)
    requires v in store.venues
    ensures VenueSummary(store, v, now) in AreaOf(store, now, v.city, v.state).venues
  {
    var a := AreaOf(store, now, v.city, v.state);
    var vs := VenuesAt(store, v.city, v.state);
    AreaOfContents(store, now, v.city, v.state);
    var j :| 0 <= j < |vs| && vs[j] == v;
    assert Summaries(store, vs, now)[j] == VenueSummary(store, v, now);
    assert VenueSummary(store, v, now) in multiset(Summaries(store, vs, now));
    assert VenueSummary(store, v, now) in multiset(a.venues);
  }

  /** The venues page does not depend on the order in which the sets of
      states and cities are iterated. */
  lemma AreasIgnoreIterationOrder(store: Store, now: Timestamp, states1: seq<string>, cities1: seq<string>, states2: seq<string>, cities2: seq<string>)
    requires Distinct(states1) && Distinct(cities1) && Distinct(states2) && Distinct(cities2)
    requires forall s :: s in states1 <==> s in states2
    requires forall c :: c in cities1 <==> c in cities2
    ensures SortAreas(AreaRows(store, now, states1, cities1)) == SortAreas(AreaRows(store, now, states2, cities2))
  {
    var r1, r2 := SortAreas(AreaRows(store, now, states1, cities1)), SortAreas(AreaRows(store, now, states2, cities2));
    SortedRows(store, now, states1, cities1);
    SortedRows(store, now, states2, cities2);
    forall a ensures a in r1 <==> a in r2 {
      if a in r1 {
        assert AreaOf(store, now, a.city, a.state) in r2;
      }
      if a in r2 {
        assert AreaOf(store, now, a.city, a.state) in r1;
      }
    }
    forall x, y | x in r1 && y in r1 && AreaLe(x, y) && AreaLe(y, x) ensures x == y {
      AreaLeAntisymmetric(x, y);
    }
    SortedUnique(r1, r2, AreaLe);
  }

  // ---------------------------------------------------------------------
  // Detail pages (`show_venue`, `show_artist`)
  // ---------------------------------------------------------------------

  /** One entry of a detail page's show lists: the other party of the show
      (the artist on a venue page, the venue on an artist page) and when. */
  datatype Appearance = Appearance(otherId: int, otherName: string, otherImageLink: string, startTime: Timestamp)

  /** The entry of a show on its venue's page: `show.artist`'s id, name and
      image. */
  function ArtistEntry(store: Store): Show --> Appearance {
    (s: Show) requires FindArtist(store.artists, s.artistId).Some? =>
      var a := FindArtist(store.artists, s.artistId).value;
      Appearance(s.artistId, a.name, a.imageLink, s.startTime)
  }

  /** The entry of a show on its artist's page: `show.venue`'s id, name and
      image. */
  function VenueEntry(store: Store): Show --> Appearance {
    (s: Show) requires FindVenue(store.venues, s.venueId).Some? =>
      var v := FindVenue(store.venues, s.venueId).value;
      Appearance(s.venueId, v.name, v.imageLink, s.startTime)
  }

  /** The `data` dictionary of the venue page. */
  datatype VenuePage = VenuePage(
    venue: Venue,
    genres: seq<string>,
    pastShows: seq<Appearance>,
    upcomingShows: seq<Appearance>,
    pastShowsCount: nat,
    upcomingShowsCount: nat)

  /** The `data` dictionary of the artist page. */
  datatype ArtistPage = ArtistPage(
    artist: Artist,
    genres: seq<string>,
    pastShows: seq<Appearance>,
    upcomingShows: seq<Appearance>,
    pastShowsCount: nat,
    upcomingShowsCount: nat)

  /** Entries in `entries` all start at or before `now` when `past`, after it
      otherwise, given they are the entries of such shows. */
  lemma EntriesKeepTimes(shows: seq<Show>, f: Show --> Appearance, now: Timestamp, past: bool)
    requires forall s :: s in shows ==> f.requires(s) && f(s).startTime == s.startTime
    requires forall s :: s in shows ==> (s.startTime <= now) == past
    ensures forall x :: x in Map(shows, f) ==> (x.startTime <= now) == past
  {
    forall x | x in Map(shows, f) ensures (x.startTime <= now) == past {
      var i :| 0 <= i < |shows| && Map(shows, f)[i] == x;
      assert shows[i] in shows;
    }
  }

  /** `show_venue`: `None` (a 404) for an unknown id. Otherwise the past list
      holds the entries of the venue's shows at or before `now`, the upcoming
      list those after it, so no entry is in both; between them they hold
      the entry of every show of the venue, and each count is its list's
      length. */
  function ShowVenue(store: Store, venueId: int, now: Timestamp): (r: Option<VenuePage>)
    requires WellFormed(store)
    ensures r.None? <==> FindVenue(store.venues, venueId).None?
    ensures r.Some? ==> r.value.venue == FindVenue(store.venues, venueId).value
    ensures r.Some? ==> r.value.genres == DisplayedGenres(r.value.venue.genres)
    ensures r.Some? ==> r.value.pastShowsCount == |r.value.pastShows| && r.value.upcomingShowsCount == |r.value.upcomingShows|
    ensures r.Some? ==> forall x :: x in r.value.pastShows ==> x.startTime <= now
    ensures r.Some? ==> forall x :: x in r.value.upcomingShows ==> x.startTime > now
    ensures r.Some? ==>
              multiset(r.value.pastShows) + multiset(r.value.upcomingShows)
              == multiset(Map(VenueShows(store, venueId), ArtistEntry(store)))
  {
    match FindVenue(store.venues, venueId)
    case None => None
    case Some(v) =>
      var shows := VenueShows(store, v.id);
      var f := ArtistEntry(store);
      var past := Map(Past(shows, now), f);
      var upcoming := Map(Upcoming(shows, now), f);
      MapFilterPartition(shows, f, (s: Show) => s.startTime <= now, (s: Show) => s.startTime > now);
      EntriesKeepTimes(Past(shows, now), f, now, true);
      EntriesKeepTimes(Upcoming(shows, now), f, now, false);
      Some(VenuePage(v, DisplayedGenres(v.genres), past, upcoming, |past|, |upcoming|))
  }

  /** `show_artist`, the same over the artist's shows with the venue as the
      other party. */
  function ShowArtist(store: Store, artistId: int, now: Timestamp): (r: Option<ArtistPage>)
    requires WellFormed(store)
    ensures r.None? <==> FindArtist(store.artists, artistId).None?
    ensures r.Some? ==> r.value.artist == FindArtist(store.artists, artistId).value
    ensures r.Some? ==> r.value.genres == DisplayedGenres(r.value.artist.genres)
    ensures r.Some? ==> r.value.pastShowsCount == |r.value.pastShows| && r.value.upcomingShowsCount == |r.value.upcomingShows|
    ensures r.Some? ==> forall x :: x in r.value.pastShows ==> x.startTime <= now
    ensures r.Some? ==> forall x :: x in r.value.upcomingShows ==> x.startTime > now
    ensures r.Some? ==>
              multiset(r.value.pastShows) + multiset(r.value.upcomingShows)
              == multiset(Map(ArtistShows(store, artistId), VenueEntry(store)))
  {
    match FindArtist(store.artists, artistId)
    case None => None
    case Some(a) =>
      var shows := ArtistShows(store, a.id);
      var f := VenueEntry(store);
      var past := Map(Past(shows, now), f);
      var upcoming := Map(Upcoming(shows, now), f);
      MapFilterPartition(shows, f, (s: Show) => s.startTime <= now, (s: Show) => s.startTime > now);
      EntriesKeepTimes(Past(shows, now), f, now, true);
      EntriesKeepTimes(Upcoming(shows, now), f, now, false);
      Some(ArtistPage(a, DisplayedGenres(a.genres), past, upcoming, |past|, |upcoming|))
  }

  // ---------------------------------------------------------------------
  // Listings (`shows`, `artists`) and the home page (`get_latest`)
  // ---------------------------------------------------------------------

  /** One entry of the shows page. */
  datatype ShowRow = ShowRow(
    venueId: int,
    venueName: string,
    artistId: int,
    artistName: string,
    artistImageLink: string,
    startTime: Timestamp)

  function ListingEntry(store: Store): Show --> ShowRow {
    (s: Show) requires FindVenue(store.venues, s.venueId).Some? && FindArtist(store.artists, s.artistId).Some? =>
      var v, a := FindVenue(store.venues, s.venueId).value, FindArtist(store.artists, s.artistId).value;
      ShowRow(s.venueId, v.name, s.artistId, a.name, a.imageLink, s.startTime)
  }

  /** `key=lambda x: x["start_time"], reverse=True`: later first. Python's
      reversed sort is stable too, so equal times keep table order. */
  predicate StartsNoEarlier(x: ShowRow, y: ShowRow) {
    x.startTime >= y.startTime
  }

  /** `shows()`: the entry of every show, each once, latest first. */
  function ShowsPage(store: Store): (r: seq<ShowRow>)
    requires WellFormed(store)
    ensures |r| == |store.shows|
    ensures forall i, j :: 0 <= i < j < |r| ==> r[i].startTime >= r[j].startTime
    ensures forall s :: s in store.shows ==> ListingEntry(store).requires(s)
    ensures multiset(r) == multiset(Map(store.shows, ListingEntry(store)))
  {
    assert TotalPreorder(StartsNoEarlier);
    var r := Sort(Map(store.shows, ListingEntry(store)), StartsNoEarlier);
    assert forall i, j :: 0 <= i < j < |r| ==> StartsNoEarlier(r[i], r[j]);
    r
  }

  /** An `{id, name}` entry of the artists page and of the home page. */
  datatype Ref = Ref(id: int, name: string)

  predicate RefNameLe(a: Ref, b: Ref) {
    StrLe(a.name, b.name)
  }

  lemma RefNameLeIsTotalPreorder()
    ensures TotalPreorder(RefNameLe)
  {
    forall a: Ref, b: Ref ensures RefNameLe(a, b) || RefNameLe(b, a) {
      StrLeTotal(a.name, b.name);
    }
    forall a: Ref, b: Ref, c: Ref | RefNameLe(a, b) && RefNameLe(b, c) ensures RefNameLe(a, c) {
      StrLeTransitive(a.name, b.name, c.name);
    }
  }

  function ArtistRef(a: Artist): Ref {
    Ref(a.id, a.name)
  }

  function VenueRef(v: Venue): Ref {
    Ref(v.id, v.name)
  }

  /** `artists()`: every artist's entry, each once, sorted by name. */
  function ArtistsPage(store: Store): (r: seq<Ref>)
    ensures SortedBy(r, RefNameLe)
    ensures multiset(r) == multiset(Map(store.artists, ArtistRef))
  {
    RefNameLeIsTotalPreorder();
    Sort(Map(store.artists, ArtistRef), RefNameLe)
  }

  /** `limit(10)` of the home page. */
  const LatestCount: nat := 10

  function VenueInserted(v: Venue): int {
    v.insertDate
  }

  function ArtistInserted(a: Artist): int {
    a.insertDate
  }

  /** `Venue.query.order_by(Venue.insert_date.desc()).limit(10)`: the ten
      newest venues (all of them if fewer), newest first, and none left out
      is newer than one chosen. */
  function LatestVenues(store: Store): (r: seq<Venue>)
    ensures |r| == if |store.venues| < LatestCount then |store.venues| else LatestCount
    ensures forall i, j :: 0 <= i < j < |r| ==> r[i].insertDate >= r[j].insertDate
    ensures multiset(r) <= multiset(store.venues)
    ensures forall x, y :: x in multiset(store.venues) - multiset(r) && y in r ==> x.insertDate <= y.insertDate
  {
    TopK(store.venues, VenueInserted, LatestCount)
  }

  /** The same for artists. */
  function LatestArtists(store: Store): (r: seq<Artist>)
    ensures |r| == if |store.artists| < LatestCount then |store.artists| else LatestCount
    ensures forall i, j :: 0 <= i < j < |r| ==> r[i].insertDate >= r[j].insertDate
    ensures multiset(r) <= multiset(store.artists)
    ensures forall x, y :: x in multiset(store.artists) - multiset(r) && y in r ==> x.insertDate <= y.insertDate
  {
    TopK(store.artists, ArtistInserted, LatestCount)
  }

  datatype Latest = Latest(venues: seq<Ref>, artists: seq<Ref>)

  /** `get_latest`: the entries of the newest venues and artists. */
  function GetLatest(store: Store): (r: Latest)
    ensures |r.venues| <= LatestCount && |r.artists| <= LatestCount
    ensures |r.venues| == |LatestVenues(store)| && |r.artists| == |LatestArtists(store)|
    ensures forall i :: 0 <= i < |r.venues| ==> r.venues[i] == VenueRef(LatestVenues(store)[i])
    ensures forall i :: 0 <= i < |r.artists| ==> r.artists[i] == ArtistRef(LatestArtists(store)[i])
  {
    Latest(Map(LatestVenues(store), VenueRef), Map(LatestArtists(store), ArtistRef))
  }
}
