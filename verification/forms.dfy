/** The venue and artist forms: their enumerated choices, the rule on the
    seeking description, the default availability window, and the way a
    submitted form becomes a stored row (genres comma-joined) and a stored row
    fills the edit form again (genres split). */
module Forms {
  import opened Wrappers
  import opened Seqs
  import opened Text
  import opened Records

  /** The state codes both forms offer, in their order, in four rows. */
  const StateRow1: seq<string> := ["AL", "AK", "AZ", "AR", "CA", "CO", "CT", "DE", "DC", "FL", "GA", "HI", "ID"]
  const StateRow2: seq<string> := ["IL", "IN", "IA", "KS", "KY", "LA", "ME", "MT", "NE", "NV", "NH", "NJ", "NM"]
  const StateRow3: seq<string> := ["NY", "NC", "ND", "OH", "OK", "OR", "MD", "MA", "MI", "MN", "MS", "MO", "PA"]
  const StateRow4: seq<string> := ["RI", "SC", "SD", "TN", "TX", "UT", "VT", "VA", "WA", "WV", "WI", "WY"]

  /** The `state` choices of the venue form. */
  const VenueStateChoices: seq<string> := StateRow1 + StateRow2 + StateRow3 + StateRow4

  /** The `state` choices of the artist form, written out separately there. */
  const ArtistStateRow1: seq<string> := ["AL", "AK", "AZ", "AR", "CA", "CO", "CT", "DE", "DC", "FL", "GA", "HI", "ID"]
  const ArtistStateRow2: seq<string> := ["IL", "IN", "IA", "KS", "KY", "LA", "ME", "MT", "NE", "NV", "NH", "NJ", "NM"]
  const ArtistStateRow3: seq<string> := ["NY", "NC", "ND", "OH", "OK", "OR", "MD", "MA", "MI", "MN", "MS", "MO", "PA"]
  const ArtistStateRow4: seq<string> := ["RI", "SC", "SD", "TN", "TX", "UT", "VT", "VA", "WA", "WV", "WI", "WY"]
  const ArtistStateChoices: seq<string> := ArtistStateRow1 + ArtistStateRow2 + ArtistStateRow3 + ArtistStateRow4

  /** The `genres` choices of the venue form. */
  const VenueGenreChoices: seq<string> := [
    "Alternative", "Blues", "Classical", "Country", "Electronic", "Folk",
    "Funk", "Hip-Hop", "Heavy Metal", "Instrumental", "Jazz", "Musical Theatre",
    "Pop", "Punk", "R&B", "Reggae", "Rock n Roll", "Soul", "Other"
  ]

  /** The `genres` choices of the artist form, written out separately there. */
  const ArtistGenreChoices: seq<string> := [
    "Alternative", "Blues", "Classical", "Country", "Electronic", "Folk",
    "Funk", "Hip-Hop", "Heavy Metal", "Instrumental", "Jazz", "Musical Theatre",
    "Pop", "Punk", "R&B", "Reggae", "Rock n Roll", "Soul", "Other"
  ]

  lemma StateListsAgree()
    ensures VenueStateChoices == ArtistStateChoices
  {
  }

  /** Two upper-case letters, as every state code is. */
  predicate IsStateCode(s: string) {
    |s| == 2 && 'A' <= s[0] <= 'Z' && 'A' <= s[1] <= 'Z'
  }

  lemma StateRow1Codes()
    ensures forall s :: s in StateRow1 ==> IsStateCode(s)
  {
  }

  lemma StateRow2Codes()
    ensures forall s :: s in StateRow2 ==> IsStateCode(s)
  {
  }

  lemma StateRow3Codes()
    ensures forall s :: s in StateRow3 ==> IsStateCode(s)
  {
  }

  lemma StateRow4Codes()
    ensures forall s :: s in StateRow4 ==> IsStateCode(s)
  {
  }

  lemma StateCodes()
    ensures |VenueStateChoices| == 51
    ensures forall s :: s in VenueStateChoices ==> IsStateCode(s)
  {
    StateRow1Codes();
    StateRow2Codes();
    StateRow3Codes();
    StateRow4Codes();
  }

  /** The first and second half of the genre list. */
  lemma GenresCommaFree1()
    ensures forall k :: 0 <= k < 10 ==> ',' !in VenueGenreChoices[k]
  {
  }

  lemma GenresCommaFree2()
    ensures forall k :: 10 <= k < 19 ==> ',' !in VenueGenreChoices[k]
  {
  }

  lemma GenreLists()
    ensures VenueGenreChoices == ArtistGenreChoices
    ensures |VenueGenreChoices| == 19
    ensures forall g :: g in VenueGenreChoices ==> ',' !in g
  {
    GenresCommaFree1();
    GenresCommaFree2();
  }

  /** Both forms offer the same lists: 51 two-letter upper-case codes (the
      fifty states and DC) and 19 genres, none of which contains a comma. */
  lemma ChoiceLists()
    ensures VenueStateChoices == ArtistStateChoices
    ensures VenueGenreChoices == ArtistGenreChoices
    ensures |VenueStateChoices| == 51
    ensures forall s :: s in VenueStateChoices ==> IsStateCode(s)
    ensures |VenueGenreChoices| == 19
    ensures forall g :: g in VenueGenreChoices ==> ',' !in g
  {
    StateListsAgree();
    StateCodes();
    GenreLists();
  }

  lemma StateRowsDistinct()
    ensures Distinct(StateRow1) && Distinct(StateRow2) && Distinct(StateRow3) && Distinct(StateRow4)
  {
  }

  /** No code is in two of the rows. */
  lemma StateRows12Apart()
    ensures forall s :: s in StateRow1 ==> s !in StateRow2
  {
  }

  lemma StateRows13Apart()
    ensures forall s :: s in StateRow1 ==> s !in StateRow3
  {
  }

  lemma StateRows14Apart()
    ensures forall s :: s in StateRow1 ==> s !in StateRow4
  {
  }

  lemma StateRows23Apart()
    ensures forall s :: s in StateRow2 ==> s !in StateRow3
  {
  }

  lemma StateRows24Apart()
    ensures forall s :: s in StateRow2 ==> s !in StateRow4
  {
  }

  lemma StateRows34Apart()
    ensures forall s :: s in StateRow3 ==> s !in StateRow4
  {
  }

  /** No state code and no genre is offered twice. */
  lemma ChoicesDistinct()
    ensures Distinct(VenueStateChoices)
    ensures Distinct(VenueGenreChoices)
  {
    StateChoicesDistinct();
    GenreChoicesDistinct();
  }

  lemma StateChoicesDistinct()
    ensures Distinct(VenueStateChoices)
  {
    StateRowsDistinct();
    StateRows12Apart();
    StateRows13Apart();
    StateRows14Apart();
    StateRows23Apart();
    StateRows24Apart();
    StateRows34Apart();
    DistinctConcat4(StateRow1, StateRow2, StateRow3, StateRow4);
  }

  lemma GenreChoicesDistinct()
    ensures Distinct(VenueGenreChoices)
  {
    GenresApart(0, 10, 0, 10);
    GenresApart(0, 5, 10, 19);
    GenresApart(5, 10, 10, 19);
    GenresApart(10, 19, 10, 19);
  }

  /** Two genres at different positions within the given ranges differ,
      checked for each range separately so that each check stays small. */
  lemma GenresApart(lo1: nat, hi1: nat, lo2: nat, hi2: nat)
    requires (lo1, hi1, lo2, hi2) in {(0, 10, 0, 10), (0, 5, 10, 19), (5, 10, 10, 19), (10, 19, 10, 19)}
    ensures forall i, j :: lo1 <= i < hi1 && lo2 <= j < hi2 && i < j ==> VenueGenreChoices[i] != VenueGenreChoices[j]
  {
  }

  /** A `SelectField` with `DataRequired`: the value must be one of the choices. */
  predicate ChoiceOk(choices: seq<string>, value: string) {
    value in choices
  }

  /** A `SelectMultipleField` with `DataRequired`: a non-empty selection whose
      every value is one of the choices. */
  predicate SelectionOk(choices: seq<string>, values: seq<string>) {
    |values| > 0 && forall v :: v in values ==> v in choices
  }

  /** The fields of a submitted `VenueForm`. */
  datatype VenueForm = VenueForm(
    name: string,
    city: string,
    state: string,
    address: string,
    phone: string,
    genres: seq<string>,
    website: string,
    facebookLink: string,
    imageLink: string,
    seekingTalent: bool,
    seekingDescription: string)

  /** The fields of a submitted `ArtistForm`. */
  datatype ArtistForm = ArtistForm(
    name: string,
    city: string,
    state: string,
    phone: string,
    genres: seq<string>,
    facebookLink: string,
    imageLink: string,
    website: string,
    seekingVenue: bool,
    seekingDescription: string,
    availableFrom: TimeOfDay,
    availableTo: TimeOfDay)

  /** The defaults of the artist form's availability fields. */
  const DefaultAvailableFrom: TimeOfDay := TimeMin
  const DefaultAvailableTo: TimeOfDay := TimeMax

  const SeekingDescriptionRequired: string := "Must provide a seeking description"

  /** `VenueForm.validate_seeking_description`: a venue that is seeking talent
      must say so in a description that is not the empty string. */
  function ValidateVenueSeekingDescription(f: VenueForm): (r: Outcome<string>)
    ensures r.Fail? <==> f.seekingTalent && f.seekingDescription == ""
    ensures r.Fail? ==> r.error == SeekingDescriptionRequired
  {
    if f.seekingTalent then
      if f.seekingDescription == "" then Fail(SeekingDescriptionRequired) else Pass
    else Pass
  }

  /** `ArtistForm.validate_seeking_description`: the same rule keyed on
      `seeking_venue`. */
  function ValidateArtistSeekingDescription(f: ArtistForm): (r: Outcome<string>)
    ensures r.Fail? <==> f.seekingVenue && f.seekingDescription == ""
    ensures r.Fail? ==> r.error == SeekingDescriptionRequired
  {
    if f.seekingVenue then
      if f.seekingDescription == "" then Fail(SeekingDescriptionRequired) else Pass
    else Pass
  }

  /** The rule compares with the empty string only: whitespace passes, and
      without the seeking flag any description passes. */
  lemma SeekingDescriptionScope(f: VenueForm, g: ArtistForm, blank: string)
    requires |blank| > 0 && forall k :: 0 <= k < |blank| ==> IsSpace(blank[k])
    ensures ValidateVenueSeekingDescription(f.(seekingDescription := blank)).Pass?
    ensures ValidateArtistSeekingDescription(g.(seekingDescription := blank)).Pass?
    ensures !f.seekingTalent ==> ValidateVenueSeekingDescription(f).Pass?
    ensures !g.seekingVenue ==> ValidateArtistSeekingDescription(g).Pass?
  {
  }

  /** The checks of a venue form this model covers (the URL and required-text
      checks are not modelled). */
  predicate VenueFormValid(f: VenueForm) {
    && ChoiceOk(VenueStateChoices, f.state)
    && SelectionOk(VenueGenreChoices, f.genres)
    && ValidateVenueSeekingDescription(f).Pass?
  }

  /** The checks of an artist form this model covers. */
  predicate ArtistFormValid(f: ArtistForm) {
    && ChoiceOk(ArtistStateChoices, f.state)
    && SelectionOk(ArtistGenreChoices, f.genres)
    && ValidateArtistSeekingDescription(f).Pass?
  }

  /** `','.join(form.genres.data)`: how a genre selection is stored. */
  function StoredGenres(genres: seq<string>): string {
    Join(genres, ',')
  }

  /** `genres.split(',')`: how stored genres are shown and put back in a form. */
  function DisplayedGenres(stored: string): seq<string> {
    Split(stored, ',')
  }

  /** An accepted genre selection survives storage: splitting the joined
      string gives the selection back. */
  lemma GenresRoundTrip(genres: seq<string>)
    requires SelectionOk(VenueGenreChoices, genres)
    ensures DisplayedGenres(StoredGenres(genres)) == genres
  {
    ChoiceLists();
    SplitJoin(genres, ',');
  }

  /** The non-empty requirement matters: an empty selection would be stored
      as `''` and shown as one empty genre. */
  lemma EmptySelectionDoesNotRoundTrip()
    ensures DisplayedGenres(StoredGenres([])) == [""]
  {
  }

  /** `create_venue_submission`: the new row; the description is kept only
      when the venue is seeking talent. */
  function NewVenue(f: VenueForm, id: int, now: Timestamp): (v: Venue)
    requires VenueFormValid(f)
    ensures DisplayedGenres(v.genres) == f.genres
    ensures v.seekingDescription == (if f.seekingTalent then f.seekingDescription else "")
    ensures v.id == id && v.insertDate == now && v.updateDate == None
  {
    GenresRoundTrip(f.genres);
    Venue(
      id := id,
      name := f.name,
      city := f.city,
      state := f.state,
      address := f.address,
      phone := f.phone,
      genres := StoredGenres(f.genres),
      imageLink := f.imageLink,
      facebookLink := f.facebookLink,
      website := f.website,
      seekingTalent := f.seekingTalent,
      seekingDescription := if f.seekingTalent then f.seekingDescription else "",
      insertDate := now,
      updateDate := None)
  }

  /** `edit_venue_submission`: every form field overwrites the row; the id and
      the insert date stay, the update date becomes `now`. */
  function EditVenue(v: Venue, f: VenueForm, now: Timestamp): (r: Venue)
    requires VenueFormValid(f)
    ensures r.id == v.id && r.insertDate == v.insertDate && r.updateDate == Some(now)
    ensures DisplayedGenres(r.genres) == f.genres
  {
    GenresRoundTrip(f.genres);
    v.(
      name := f.name,
      city := f.city,
      state := f.state,
      genres := StoredGenres(f.genres),
      phone := f.phone,
      facebookLink := f.facebookLink,
      imageLink := f.imageLink,
      website := f.website,
      seekingTalent := f.seekingTalent,
      seekingDescription := f.seekingDescription,
      address := f.address,
      updateDate := Some(now))
  }

  /** `edit_venue` (GET): the edit form filled from the stored row. */
  function VenueEditForm(v: Venue): VenueForm {
    VenueForm(
      name := v.name,
      city := v.city,
      state := v.state,
      address := v.address,
      phone := v.phone,
      genres := DisplayedGenres(v.genres),
      website := v.website,
      facebookLink := v.facebookLink,
      imageLink := v.imageLink,
      seekingTalent := v.seekingTalent,
      seekingDescription := v.seekingDescription)
  }

  /** Opening a just-created venue for editing shows the submitted form,
      except that a description given without the seeking flag was dropped. */
  lemma CreatedVenueReopens(f: VenueForm, id: int, now: Timestamp)
    requires VenueFormValid(f)
    ensures VenueEditForm(NewVenue(f, id, now)) ==
            f.(seekingDescription := if f.seekingTalent then f.seekingDescription else "")
  {
  }

  /** Opening a just-edited venue for editing shows exactly the submitted form. */
  lemma EditedVenueReopens(v: Venue, f: VenueForm, now: Timestamp)
    requires VenueFormValid(f)
    ensures VenueEditForm(EditVenue(v, f, now)) == f
  {
  }

  /** `create_artist_submission`: the new row, description kept as submitted. */
  function NewArtist(f: ArtistForm, id: int, now: Timestamp): (a: Artist)
    requires ArtistFormValid(f)
    ensures DisplayedGenres(a.genres) == f.genres
    ensures a.id == id && a.insertDate == now && a.updateDate == None
  {
    ChoiceLists();
    GenresRoundTrip(f.genres);
    Artist(
      id := id,
      name := f.name,
      city := f.city,
      state := f.state,
      phone := f.phone,
      genres := StoredGenres(f.genres),
      imageLink := f.imageLink,
      facebookLink := f.facebookLink,
      website := f.website,
      seekingVenue := f.seekingVenue,
      seekingDescription := f.seekingDescription,
      insertDate := now,
      updateDate := None,
      availableFrom := f.availableFrom,
      availableTo := f.availableTo)
  }

  /** `edit_artist_submission`: every form field overwrites the row; the id
      and the insert date stay, the update date becomes `now`. */
  function EditArtist(a: Artist, f: ArtistForm, now: Timestamp): (r: Artist)
    requires ArtistFormValid(f)
    ensures r.id == a.id && r.insertDate == a.insertDate && r.updateDate == Some(now)
    ensures DisplayedGenres(r.genres) == f.genres
  {
    ChoiceLists();
    GenresRoundTrip(f.genres);
    a.(
      name := f.name,
      city := f.city,
      state := f.state,
      genres := StoredGenres(f.genres),
      phone := f.phone,
      facebookLink := f.facebookLink,
      imageLink := f.imageLink,
      website := f.website,
      seekingVenue := f.seekingVenue,
      seekingDescription := f.seekingDescription,
      availableFrom := f.availableFrom,
      availableTo := f.availableTo,
      updateDate := Some(now))
  }

  /** `edit_artist` (GET): the edit form filled from the stored row. */
  function ArtistEditForm(a: Artist): ArtistForm {
    ArtistForm(
      name := a.name,
      city := a.city,
      state := a.state,
      phone := a.phone,
      genres := DisplayedGenres(a.genres),
      facebookLink := a.facebookLink,
      imageLink := a.imageLink,
      website := a.website,
      seekingVenue := a.seekingVenue,
      seekingDescription := a.seekingDescription,
      availableFrom := a.availableFrom,
      availableTo := a.availableTo)
  }

  /** Opening a just-created or just-edited artist for editing shows exactly
      the submitted form. */
  lemma ArtistReopens(a: Artist, f: ArtistForm, id: int, now: Timestamp)
    requires ArtistFormValid(f)
    ensures ArtistEditForm(NewArtist(f, id, now)) == f
    ensures ArtistEditForm(EditArtist(a, f, now)) == f
  {
  }
}
