/** Scheduling a show: the `validate_start_time` validator attached to the
    show form's start time, and the submission that lists the show when the
    whole form validates. */
module Schedule {
  import opened Wrappers
  import opened Records
  import opened Text
  import Forms

  /** Why a start time is refused: a validation error shown on the form, or the
      chosen artist does not exist (the source then dereferences `None` and
      the request fails with a server error). */
  datatype Rejection = ValidationError(message: string) | ArtistNotFound

  const PastMessage: string := "Cannot add a show in the past"

  function Digit(d: int): char
    requires 0 <= d < 10
  {
    ('0' as int + d) as char
  }

  /** The value of a decimal digit character. */
  function DigitValue(c: char): int {
    c as int - '0' as int
  }

  predicate IsDigit(c: char) {
    '0' <= c <= '9'
  }

  /** `t.strftime('%H:%M')`: two-digit hour, a colon, two-digit minute;
      seconds and microseconds are dropped. */
  function Hhmm(t: TimeOfDay): (r: string)
    ensures |r| == 5 && r[2] == ':'
    ensures IsDigit(r[0]) && IsDigit(r[1]) && IsDigit(r[3]) && IsDigit(r[4])
    ensures DigitValue(r[0]) * 10 + DigitValue(r[1]) == t / MicrosPerHour
    ensures DigitValue(r[3]) * 10 + DigitValue(r[4]) == t % MicrosPerHour / MicrosPerMinute
  {
    var h := t / MicrosPerHour;
    var m := t % MicrosPerHour / MicrosPerMinute;
    [Digit(h / 10), Digit(h % 10), ':', Digit(m / 10), Digit(m % 10)]
  }

  /** The artist is available at the time of day of `t`: the half-open daily
      window `[availableFrom, availableTo)`. */
  predicate InWindow(a: Artist, t: Timestamp) {
    a.availableFrom <= TimeOfDayOf(t) < a.availableTo
  }

  function WindowMessage(a: Artist): string {
    "Artist '" + a.name + "' is available only at " + Hhmm(a.availableFrom) + " - " + Hhmm(a.availableTo)
  }

  /** `validate_start_time`: a start time at or before `now` is refused first,
      whatever the artist; a later one is accepted exactly when the artist
      exists and is available at that time of day. */
  function ValidateStartTime(artists: seq<Artist>, artistId: int, start: Timestamp, now: Timestamp): (r: Outcome<Rejection>)
    ensures start <= now ==> r == Fail(ValidationError(PastMessage))
    ensures start > now && FindArtist(artists, artistId).None? ==> r == Fail(ArtistNotFound)
    ensures r.Pass? <==>
              start > now && FindArtist(artists, artistId).Some? && InWindow(FindArtist(artists, artistId).value, start)
    ensures start > now && FindArtist(artists, artistId).Some? && !InWindow(FindArtist(artists, artistId).value, start) ==>
              r == Fail(ValidationError(WindowMessage(FindArtist(artists, artistId).value)))
  {
    if start <= now then Fail(ValidationError(PastMessage))
    else
      match FindArtist(artists, artistId)
      case None => Fail(ArtistNotFound)
      case Some(a) =>
        var tod := TimeOfDayOf(start);
        if a.availableFrom > tod || tod >= a.availableTo then Fail(ValidationError(WindowMessage(a))) else Pass
  }

  /** An artist whose window is empty or inverted (`from >= to`) can be
      booked at no time at all. */
  lemma EmptyWindowRejectsAll(artists: seq<Artist>, artistId: int, start: Timestamp, now: Timestamp)
    requires FindArtist(artists, artistId).Some?
    requires FindArtist(artists, artistId).value.availableFrom >= FindArtist(artists, artistId).value.availableTo
    ensures ValidateStartTime(artists, artistId, start, now).Fail?
  {
  }

  /** The artist form's default window `[time.min, time.max)` admits every
      time of day but `time.max` itself. */
  lemma DefaultWindowMissesLastMicrosecond(a: Artist, t: Timestamp)
    requires a.availableFrom == Forms.DefaultAvailableFrom && a.availableTo == Forms.DefaultAvailableTo
    ensures InWindow(a, t) <==> TimeOfDayOf(t) != TimeMax
  {
  }

  /** Shifting a timestamp by whole days keeps its time of day. */
  lemma {:induction false} TimeOfDayShift(t: Timestamp, k: int)
    ensures TimeOfDayOf(t + k * MicrosPerDay) == TimeOfDayOf(t)
    decreases if k < 0 then -k else k
  {
    if k > 0 {
      TimeOfDayShift(t, k - 1);
      assert t + k * MicrosPerDay == (t + (k - 1) * MicrosPerDay) + MicrosPerDay;
    } else if k < 0 {
      TimeOfDayShift(t, k + 1);
      assert t + k * MicrosPerDay == (t + (k + 1) * MicrosPerDay) - MicrosPerDay;
    }
  }

  /** Once both are in the future, two start times on different days at the
      same time of day get the same verdict. */
  lemma VerdictIgnoresDate(artists: seq<Artist>, artistId: int, start: Timestamp, k: int, now: Timestamp)
    requires start > now && start + k * MicrosPerDay > now
    ensures ValidateStartTime(artists, artistId, start + k * MicrosPerDay, now) == ValidateStartTime(artists, artistId, start, now)
  {
    TimeOfDayShift(start, k);
  }

  /** `09:00` and `17:00` as times of day. */
  const NineAm: TimeOfDay := 9 * MicrosPerHour
  const FivePm: TimeOfDay := 17 * MicrosPerHour

  lemma HhmmOfWindow()
    ensures Hhmm(NineAm) == "09:00" && Hhmm(FivePm) == "17:00"
  {
    assert Hhmm(NineAm) == [Digit(0), Digit(9), ':', Digit(0), Digit(0)];
    assert Hhmm(FivePm) == [Digit(1), Digit(7), ':', Digit(0), Digit(0)];
  }

  /** An artist available 09:00-17:00 asked to play at 08:59 on a future day
      is refused with a message naming the window. */
  lemma EarlyStartMessage(a: Artist, artists: seq<Artist>, day: int, now: Timestamp)
    requires artists == [a]
    requires a.name == "Sax" && a.availableFrom == NineAm && a.availableTo == FivePm
    requires day * MicrosPerDay > now
    ensures ValidateStartTime(artists, a.id, day * MicrosPerDay + 8 * MicrosPerHour + 59 * MicrosPerMinute, now)
            == Fail(ValidationError("Artist 'Sax' is available only at 09:00 - 17:00"))
  {
    var start := day * MicrosPerDay + 8 * MicrosPerHour + 59 * MicrosPerMinute;
    TimeOfDayShift(8 * MicrosPerHour + 59 * MicrosPerMinute, day);
    assert FindArtist(artists, a.id) == Some(a);
    assert !InWindow(a, start);
    SaxMessage(a);
  }

  lemma SaxMessage(a: Artist)
    requires a.name == "Sax" && a.availableFrom == NineAm && a.availableTo == FivePm
    ensures WindowMessage(a) == "Artist 'Sax' is available only at 09:00 - 17:00"
  {
    HhmmOfWindow();
    var p := "Artist 'Sax' is available only at ";
    SaxPrefixText();
    WindowText();
    SaxWholeText();
    ConcatAssoc(p, Hhmm(a.availableFrom) + " - ", Hhmm(a.availableTo));
    ConcatAssoc(p, Hhmm(a.availableFrom), " - ");
  }

  /** The three pieces of the expected message, glued together (kept apart
      so that each equality between literals stays small). */
  lemma SaxPrefixText()
    ensures "Artist '" + "Sax" + "' is available only at " == "Artist 'Sax' is available only at "
  {
  }

  lemma WindowText()
    ensures "09:00" + " - " + "17:00" == "09:00 - 17:00"
  {
  }

  lemma SaxWholeText()
    ensures "Artist 'Sax' is available only at " + "09:00 - 17:00" == "Artist 'Sax' is available only at 09:00 - 17:00"
  {
  }

  /** How a show submission ends: the show is listed in the updated store, the
      form is shown again with its errors, or the request fails. */
  datatype ShowFormError = FormInvalid | ServerError

  /** `create_show_submission`: the artist and venue must be among the form's
      choices (every artist and every venue) and the start time must pass
      `validate_start_time`; every field is validated, so a missing artist
      fails the request once the start time is in the future. A valid form
      appends the show under the id the database assigns. */
  function CreateShow(store: Store, venueId: int, artistId: int, start: Timestamp, now: Timestamp, newId: int): (r: Result<Store, ShowFormError>)
    ensures r.Success? <==>
              FindVenue(store.venues, venueId).Some? && ValidateStartTime(store.artists, artistId, start, now).Pass?
    ensures r == Failure(ServerError) <==> start > now && FindArtist(store.artists, artistId).None?
    ensures r.Success? ==>
              r.value == Store(store.venues, store.artists, store.shows + [Show(newId, venueId, artistId, start)])
    ensures r.Success? ==> r.value.shows[|store.shows|].startTime > now
  {
    var verdict := ValidateStartTime(store.artists, artistId, start, now);
    if verdict == Fail(ArtistNotFound) then Failure(ServerError)
    else if FindArtist(store.artists, artistId).None? || FindVenue(store.venues, venueId).None? || verdict.Fail? then
      Failure(FormInvalid)
    else
      Success(Store(store.venues, store.artists, store.shows + [Show(newId, venueId, artistId, start)]))
  }

  /** Listing a show keeps the store well formed: the new show's venue and
      artist both exist. */
  lemma CreateShowKeepsWellFormed(store: Store, venueId: int, artistId: int, start: Timestamp, now: Timestamp, newId: int)
    requires WellFormed(store)
    requires CreateShow(store, venueId, artistId, start, now, newId).Success?
    ensures WellFormed(CreateShow(store, venueId, artistId, start, now, newId).value)
  {
    var after := CreateShow(store, venueId, artistId, start, now, newId).value;
    forall s | s in after.shows
      ensures FindVenue(after.venues, s.venueId).Some? && FindArtist(after.artists, s.artistId).Some?
    {
      if s !in store.shows {
        assert s == Show(newId, venueId, artistId, start);
      }
    }
  }
}
