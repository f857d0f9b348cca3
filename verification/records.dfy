/** The three stored entities (venues, artists, shows), the store that holds
    them, and the queries every view shares: lookup by id, a venue's or an
    artist's shows, and the past/upcoming split of a list of shows. */
module Records {
  import opened Wrappers
  import opened Seqs
  import opened Text

  /** Timestamps and times of day count microseconds, the resolution of
      Python's `datetime` and `time`. */
  const MicrosPerMinute: int := 60_000_000
  const MicrosPerHour: int := 3_600_000_000
  const MicrosPerDay: int := 86_400_000_000

  /** A naive `datetime`, as microseconds from an epoch that is a midnight
      (so that `TimeOfDayOf` below is `.time()`). */
  type Timestamp = int

  /** A `time` of day, as microseconds since midnight. */
  type TimeOfDay = t: int | 0 <= t < MicrosPerDay

  /** `time.min` and `time.max` (23:59:59.999999). */
  const TimeMin: TimeOfDay := 0
  const TimeMax: TimeOfDay := MicrosPerDay - 1

  /** `dt.time()`: the time of day of a timestamp, given that the epoch is a
      midnight. */
  function TimeOfDayOf(t: Timestamp): TimeOfDay {
    t % MicrosPerDay
  }

  /** A row of the `venues` table. Genres are stored comma-joined. */
  datatype Venue = Venue(
    id: int,
    name: string,
    city: string,
    state: string,
    address: string,
    phone: string,
    genres: string,
    imageLink: string,
    facebookLink: string,
    website: string,
    seekingTalent: bool,
    seekingDescription: string,
    insertDate: Timestamp,
    updateDate: Option<Timestamp>)

  /** A row of the `artists` table, with the artist's daily availability
      window `[availableFrom, availableTo)`. */
  datatype Artist = Artist(
    id: int,
    name: string,
    city: string,
    state: string,
    phone: string,
    genres: string,
    imageLink: string,
    facebookLink: string,
    website: string,
    seekingVenue: bool,
    seekingDescription: string,
    insertDate: Timestamp,
    updateDate: Option<Timestamp>,
    availableFrom: TimeOfDay,
    availableTo: TimeOfDay)

  /** A row of the `shows` table: one artist playing one venue at one time. */
  datatype Show = Show(id: int, venueId: int, artistId: int, startTime: Timestamp)

  /** The database, each table in its query order. */
  datatype Store = Store(venues: seq<Venue>, artists: seq<Artist>, shows: seq<Show>)

  /** `Venue.query.get(id)`. */
  function FindVenue(venues: seq<Venue>, id: int): (r: Option<Venue>)
    ensures r.Some? ==> r.value in venues && r.value.id == id
    ensures r.None? <==> forall v :: v in venues ==> v.id != id
  {
    if |venues| == 0 then None
    else if venues[0].id == id then Some(venues[0])
    else FindVenue(venues[1..], id)
  }

  /** `Artist.query.get(id)`. */
  function FindArtist(artists: seq<Artist>, id: int): (r: Option<Artist>)
    ensures r.Some? ==> r.value in artists && r.value.id == id
    ensures r.None? <==> forall a :: a in artists ==> a.id != id
  {
    if |artists| == 0 then None
    else if artists[0].id == id then Some(artists[0])
    else FindArtist(artists[1..], id)
  }

  /** What the schema guarantees: primary keys and names are unique, and every
      show's two foreign keys name an existing venue and artist. */
  ghost predicate WellFormed(store: Store) {
    && (forall i, j :: 0 <= i < j < |store.venues| ==>
          store.venues[i].id != store.venues[j].id && store.venues[i].name != store.venues[j].name)
    && (forall i, j :: 0 <= i < j < |store.artists| ==>
          store.artists[i].id != store.artists[j].id && store.artists[i].name != store.artists[j].name)
    && (forall s :: s in store.shows ==>
          FindVenue(store.venues, s.venueId).Some? && FindArtist(store.artists, s.artistId).Some?)
  }

  /** Two venues of a well-formed table with the same id are the same
      venue. */
  lemma SameIdSameVenue(store: Store, v: Venue, w: Venue)
    requires WellFormed(store)
    requires v in store.venues && w in store.venues && v.id == w.id
    ensures v == w
  {
    var i :| 0 <= i < |store.venues| && store.venues[i] == v;
    var j :| 0 <= j < |store.venues| && store.venues[j] == w;
  }

  /** `venue.shows`: the shows whose venue is `venueId`. */
  function VenueShows(store: Store, venueId: int): (r: seq<Show>)
    ensures forall s :: s in r ==> s.venueId == venueId
    ensures forall s :: s in store.shows && s.venueId == venueId ==> s in r
  {
    Filter(store.shows, (s: Show) => s.venueId == venueId)
  }

  /** `artist.shows`: the shows whose artist is `artistId`. */
  function ArtistShows(store: Store, artistId: int): (r: seq<Show>)
    ensures forall s :: s in r ==> s.artistId == artistId
    ensures forall s :: s in store.shows && s.artistId == artistId ==> s in r
  {
    Filter(store.shows, (s: Show) => s.artistId == artistId)
  }

  /** `shows.filter(Show.start_time <= now)`. */
  function Past(shows: seq<Show>, now: Timestamp): seq<Show> {
    Filter(shows, (s: Show) => s.startTime <= now)
  }

  /** `shows.filter(Show.start_time > now)`. */
  function Upcoming(shows: seq<Show>, now: Timestamp): seq<Show> {
    Filter(shows, (s: Show) => s.startTime > now)
  }

  /** The past and the upcoming shows split a list of shows: the first lie at
      or before `now`, the second after it, and together they hold every show
      of the list exactly as often as the list does. */
  lemma PastUpcomingPartition(shows: seq<Show>, now: Timestamp)
    ensures forall s :: s in Past(shows, now) ==> s.startTime <= now
    ensures forall s :: s in Upcoming(shows, now) ==> s.startTime > now
    ensures multiset(Past(shows, now)) + multiset(Upcoming(shows, now)) == multiset(shows)
    ensures |Past(shows, now)| + |Upcoming(shows, now)| == |shows|
  {
    FilterPartition(shows, (s: Show) => s.startTime <= now, (s: Show) => s.startTime > now);
  }

  /** The `{id, name, num_upcoming_shows}` entry listed for a venue or artist
      by the search results and the venues page. */
  datatype Summary = Summary(id: int, name: string, numUpcomingShows: nat)

  function VenueSummary(store: Store, v: Venue, now: Timestamp): Summary {
    Summary(v.id, v.name, |Upcoming(VenueShows(store, v.id), now)|)
  }

  function ArtistSummary(store: Store, a: Artist, now: Timestamp): Summary {
    Summary(a.id, a.name, |Upcoming(ArtistShows(store, a.id), now)|)
  }

  /** The key `lambda x: x['name']` of the listings sorted by name. */
  predicate NameLe(a: Summary, b: Summary) {
    StrLe(a.name, b.name)
  }

  lemma NameLeIsTotalPreorder()
    ensures TotalPreorder(NameLe)
  {
    forall a: Summary, b: Summary ensures NameLe(a, b) || NameLe(b, a) {
      StrLeTotal(a.name, b.name);
    }
    forall a: Summary, b: Summary, c: Summary | NameLe(a, b) && NameLe(b, c) ensures NameLe(a, c) {
      StrLeTransitive(a.name, b.name, c.name);
    }
  }
}
