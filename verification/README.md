# fyyur booking directory in Dafny

A model of the logic inside fyyur, a Flask/SQLAlchemy directory of venues,
artists and the shows that pair them.

The request handlers in `app.py` and the form classes in `forms.py` are
rewritten as pure functions over an in-memory store. The store is three
sequences of rows: venues, artists and shows, each in query order. The
current time `now` is an explicit parameter. Timestamps and times of day are
integers counting microseconds, and the time of day of a timestamp is
`t % 86_400_000_000`.

The model covers:

- **The search resolver** (`search_venues`, `search_artists`):
  - a term with a comma selects the records whose city and state both match
    the trimmed first and second comma pieces;
  - otherwise the first non-empty match wins, in the order name, city,
    state;
  - the response has a count, and its entries are sorted by name with
    their upcoming-show counts.
- **The scheduling validator** (`validate_start_time`): past start times
  are refused first, then times of day outside the artist's half-open window
  `[available_from, available_to)`. The message names the window as `HH:MM`.
  The show submission built on it is modelled as well.
- **The read-only views**:
  - venues grouped by city and state;
  - the venue and artist detail pages, with their past/upcoming split;
  - the shows listing, latest first;
  - the artists listing, by name;
  - the ten newest venues and artists.
- **The form rules**:
  - the seeking-description rule;
  - the state and genre choice lists;
  - the default availability window;
  - the comma-joined genre storage, with its split/join round trip.
  - Also modelled: how a submitted form becomes a row, and how a row
    fills the edit form again.

Modules:

| file | module | contents |
|---|---|---|
| `wrappers.dfy` | `Wrappers` | `Option`, `Outcome`, `Result` |
| `seqs.dfy` | `Seqs` | filter, de-duplication, insertion sort (ordering and permutation proved; stability not stated), map, top-k |
| `text.dfy` | `Text` | Python `strip`, `split`, `join`, `str` ordering, ILIKE `%p%` |
| `records.dfy` | `Records` | rows, store, lookups, relationships, past/upcoming |
| `forms.dfy` | `Forms` | choice lists, validators, form ↔ row |
| `search.dfy` | `Search` | the search handlers |
| `schedule.dfy` | `Schedule` | `validate_start_time`, `create_show_submission` |
| `views.dfy` | `Views` | venues by area, detail pages, listings, latest |

## Model

| member | source | states |
|---|---|---|
| Records.FindVenue | app.py:187-189 | `Venue.query.get`: the venue found is in the table and has the id; `None` exactly when no venue has the id |
| Records.FindArtist | app.py:336-338 | `Artist.query.get`: the artist found is in the table and has the id; `None` exactly when no artist has the id |
| Records.VenueShows | app.py:48 | `venue.shows` holds exactly the shows of the table whose venue is the venue |
| Records.ArtistShows | app.py:71 | `artist.shows` holds exactly the shows of the table whose artist is the artist |
| Records.PastUpcomingPartition | app.py:211-224 | past shows start at or before `now` and upcoming ones after it; together they hold each show exactly as often as the list does, and their counts add up to the list's length |
| Records.NameLeIsTotalPreorder | app.py:136 | ordering entries by `name` (Python `str` order) is total and transitive, so `sorted(..., key=name)` is well defined |
| Text.Strip | app.py:150 | `str.strip()`: the result is a slice of the input with only whitespace before and after it, and it neither starts nor ends with whitespace |
| Text.ContainsSubIff | app.py:155 | the substring test behind `ilike('%term%')` holds exactly when the pattern occurs at some position |
| Text.ILikeContainsIff | app.py:155 | `ilike('%p%')` holds exactly when the case-folded pattern occurs in the case-folded value; the empty pattern matches every value |
| Text.IndexOf | app.py:148 | `find(',')` when found: the position holds the comma and no earlier position does |
| Text.Split | app.py:193 | `split(',')`: at least one piece, two or more exactly when there is a comma, no piece holds a comma, and joining the pieces gives the string back |
| Text.SplitJoin | app.py:252 | splitting a joined non-empty list of comma-free parts gives the list back |
| Text.SplitAppend | app.py:150-151 | the pieces of `a + ',' + b` are the pieces of `a` followed by the pieces of `b` |
| Text.StrLeTotal | app.py:136 | any two strings are ordered one way or the other |
| Text.StrLeTransitive | app.py:136 | the `str` order is transitive |
| Text.StrLeAntisymmetric | app.py:140 | strings ordered both ways are equal |
| Seqs.Filter | app.py:122 | a comprehension with `if` keeps exactly the elements that pass, each as often as the input has it |
| Seqs.FilterPartition | app.py:211-224 | two complementary filters split a list: together they hold each element exactly as often, and their lengths add up |
| Seqs.Sort | app.py:136 | `sorted`: the result is ordered by the key and is a permutation of the input |
| Seqs.SortedUnique | app.py:140 | two duplicate-free sorted permutations of each other are equal when the order is antisymmetric on them |
| Seqs.MapFilterPartition | app.py:203-222 | mapping the two halves of a partition gives, between them, the image of every element exactly as often |
| Seqs.TopK | app.py:584 | `order_by(key.desc()).limit(k)`: `min(n, k)` elements, keys non-increasing, drawn from the input, and none left out has a greater key than one chosen |
| Search.AreaSearch | app.py:148-152 | there is a result exactly when the term has a comma; it holds exactly the records whose city matches the first trimmed piece and whose state matches the second, each as often as the table has it |
| Search.ColumnSearch | app.py:155 | `filter(column.ilike('%term%')).all()` is non-empty exactly when some record matches; it holds exactly the matching records, each as often |
| Search.Resolve | app.py:148-165 | a comma term gives the city/state selection and nothing else; without a comma the name matches if any exist, else the city matches if any, else the state matches if any; `None` exactly when none of the three finds anything |
| Search.Respond | app.py:167-179 | `count` equals the length of `data`; `data` is sorted by name; nothing selected gives no data; otherwise `data` is a permutation of the selected records' entries |
| Search.SearchVenues | app.py:143-181 | `count == len(data)`, `data` sorted by name, and every entry is the `{id, name, num_upcoming_shows}` of a stored venue, with its count of shows after `now` |
| Search.SearchArtists | app.py:290-331 | the same over artists |
| Search.ListedComeFrom | app.py:167-178 | every entry of the response is the entry of a record that was searched |
| Search.CommaTermNeverFallsBack | app.py:148-154 | with a comma and no city/state match, the response is `count = 0` with no data, even if names would match |
| Search.EmptyTermSelectsAll | app.py:154-157 | the empty term selects every record, in table order, whenever there is one |
| Search.PatternsOfCommaTerm | app.py:150-151 | the city pattern is the trimmed text before the first comma; the state pattern is the trimmed text after it, up to the next comma |
| Search.LaterPiecesIgnored | app.py:150-151 | extending a term that has a comma with a further comma and any text leaves both patterns unchanged |
| Schedule.Hhmm | app.py:598-599 | `strftime('%H:%M')`: five characters, two hour digits, a colon and two minute digits, spelling the hour and the minute of the time |
| Schedule.ValidateStartTime | app.py:591-599 | a start at or before `now` is refused with the past message, whatever the artist; a later start with no such artist is `ArtistNotFound`; a later start passes exactly when the artist exists and the time of day is in `[from, to)`; otherwise it is refused with the window message |
| Schedule.EmptyWindowRejectsAll | app.py:596 | an artist whose window has `from >= to` can never be booked |
| Schedule.DefaultWindowMissesLastMicrosecond | forms.py:247-252 | with the default window `[time.min, time.max)`, a start's time of day is accepted exactly when it is not `time.max` |
| Schedule.TimeOfDayShift | app.py:596 | shifting a timestamp by whole days keeps its `.time()` |
| Schedule.VerdictIgnoresDate | app.py:593-596 | two future start times with the same time of day get the same verdict |
| Schedule.HhmmOfWindow | app.py:598-599 | 09:00 and 17:00 are written `09:00` and `17:00` |
| Schedule.SaxMessage | app.py:597-599 | artist `Sax` with window 09:00-17:00 gets the message `Artist 'Sax' is available only at 09:00 - 17:00` |
| Schedule.EarlyStartMessage | app.py:591-599 | a future start at 08:59 for that artist is refused with that message |
| Schedule.CreateShow | app.py:554-570 | the show is listed exactly when the venue exists and the start time passes the validator; the request fails exactly when the start is in the future and the artist is missing; on success, only the new show is appended, and it starts after `now` |
| Schedule.CreateShowKeepsWellFormed | app.py:561-566 | listing a show keeps every show's venue and artist in the store |
| Forms.StateCodes | forms.py:28-83 | the venue form offers 51 states, each a two-letter upper-case code |
| Forms.GenreLists | forms.py:90-113 | the venue and artist forms offer the same 19 genres, none with a comma |
| Forms.ChoiceLists | forms.py:143-225 | the artist form offers the same state list and the same genre list as the venue form: 51 codes and 19 comma-free genres |
| Forms.ChoicesDistinct | forms.py:28-113 | no state and no genre is offered twice |
| Forms.ValidateVenueSeekingDescription | forms.py:130-133 | a venue form is refused exactly when `seeking_talent` is set and the description is `''`, with the message `Must provide a seeking description` |
| Forms.ValidateArtistSeekingDescription | forms.py:242-245 | an artist form is refused exactly when `seeking_venue` is set and the description is `''`, with the same message |
| Forms.SeekingDescriptionScope | forms.py:130-133 | a whitespace-only description passes, and without the seeking flag any description passes |
| Forms.GenresRoundTrip | app.py:252 | joining an accepted genre selection with `','` and splitting it again gives the selection back |
| Forms.EmptySelectionDoesNotRoundTrip | app.py:193 | an empty selection would be stored as `''` and read back as one empty genre |
| Forms.NewVenue | app.py:244-258 | the new row reads back the submitted genres; the description is kept only when seeking talent; it gets the new id, inserted `now` and never updated |
| Forms.EditVenue | app.py:471-482 | the edited row keeps its id and insert date, is updated `now`, and reads back the submitted genres |
| Forms.CreatedVenueReopens | app.py:448-458 | opening a just-created venue for editing shows the submitted form, except a description given without the seeking flag |
| Forms.EditedVenueReopens | app.py:448-458 | opening a just-edited venue for editing shows exactly the submitted form |
| Forms.NewArtist | app.py:503-517 | the new row reads back the submitted genres, gets the new id, is inserted `now` and never updated |
| Forms.EditArtist | app.py:425-437 | the edited row keeps its id and insert date, is updated `now`, and reads back the submitted genres |
| Forms.ArtistReopens | app.py:401-412 | opening a just-created or just-edited artist for editing shows exactly the submitted form |
| Views.VenuesAt | app.py:122 | the venues of a city and state are exactly the stored venues with that city and state |
| Views.AreaOfContents | app.py:128-137 | the group `AreaOf` builds for a city and state holds one entry per venue of that city and state, sorted by name, as a permutation of those venues' entries |
| Views.StateRow | app.py:121-139 | the inner loop gives a group exactly for each iterated city that has venues in the state |
| Views.StateRowDistinct | app.py:121-123 | distinct cities give distinct groups |
| Views.AreaRows | app.py:120-139 | the nested loops give a group exactly for each iterated state and city that have venues together |
| Views.AreaRowsDistinct | app.py:116-123 | the sets of states and cities give distinct groups |
| Views.AreaLeIsTotalPreorder | app.py:140 | ordering groups by `(state, city)` is total and transitive |
| Views.AreaLeAntisymmetric | app.py:140 | groups ordered both ways by `(state, city)` have the same state and city |
| Views.SortAreas | app.py:140 | the groups are sorted by `(state, city)` and permuted |
| Views.Areas | app.py:113-140 | `venues()`: every group is non-empty and sorted by name, and holds exactly the entries of its city and state; every venue's group is listed; groups are sorted by `(state, city)`, and no pair repeats |
| Views.VenueIsListed | app.py:115-123 | a venue's state and city are among those iterated, and its own pair has venues |
| Views.SortedRows | app.py:118-140 | after sorting, each group is the group of its own pair; every occupied pair has one, and no pair has two |
| Views.VenueInExactlyOneArea | app.py:113-140 | with unique ids, every venue is listed in exactly one group: its city and state have a group, a group lists the venue's entry exactly when it has that city and state, and no two groups list it |
| Views.EntryOfGroup | app.py:128-137 | with unique ids, a venue's entry appears among the entries of a city and state only when the venue lies there |
| Views.AreaListsVenue | app.py:122-135 | a venue's entry is in the group of its own city and state |
| Views.AreasIgnoreIterationOrder | app.py:116-121 | the venues page is the same whatever order the sets of states and cities are iterated in |
| Views.EntriesKeepTimes | app.py:203-222 | the entries of past shows are at or before `now`, and the entries of upcoming shows are after it |
| Views.ShowVenue | app.py:184-225 | `None` (404) exactly for an unknown id; otherwise: the venue and its split genres; past entries at or before `now` and upcoming ones after it; between them, the artist entry of every show of the venue, each once; and each count is its list's length |
| Views.ShowArtist | app.py:334-375 | the same for an artist, with the venue as the other party |
| Views.ShowsPage | app.py:530-544 | `shows()`: one entry per show, a permutation of all the shows' entries, with start times non-increasing |
| Views.RefNameLeIsTotalPreorder | app.py:287 | ordering `{id, name}` entries by name is total and transitive |
| Views.ArtistsPage | app.py:283-287 | `artists()`: every artist's `{id, name}` once, sorted by name |
| Views.LatestVenues | app.py:584 | the ten newest venues (all of them if fewer), newest first, drawn from the table, with no venue left out newer than one chosen |
| Views.LatestArtists | app.py:585 | the same for artists |
| Views.GetLatest | app.py:583-588 | `get_latest()`: at most ten `{id, name}` entries of each kind, in the order of the newest venues and artists |

Notes on what the code does, where a reader might expect otherwise:

- **Comma searches never fall back.** A term with a comma runs the city and
  state query, and `.all()` returns a list even when it is empty, so
  `venues is None` is false and the name/city/state chain never runs
  (app.py:148-154; `Search.CommaTermNeverFallsBack`).
- **The state pattern is only the second piece.** The state pattern is
  `split(',')[1]`: the text between the first and the second comma. Anything
  after a second comma is ignored (app.py:150-151; `Search.PatternsOfCommaTerm`,
  `Search.LaterPiecesIgnored`).
- **The messages are the code's.** The past start time message is
  `Cannot add a show in the past` (app.py:593-594). The window message
  separates the two times with `" - "` (app.py:597-599; `Schedule.SaxMessage`).
- **A missing artist is a server error.** `validate_start_time` looks the
  artist up with `Artist.query.get` and reads `available_from` from the result
  without a check, so an unknown artist id fails the request (app.py:595-596).
  It is modelled as `ArtistNotFound` and, in `CreateShow`, as `ServerError`,
  not as a precondition.

## Left out

- Flask routing, templates, `flash`, `redirect`/`abort` and the 404/500
  handlers: framework plumbing. A 404 is the `None` of `ShowVenue` and
  `ShowArtist`.
- SQLAlchemy sessions, commits and the broad `except` blocks around
  persistence: a failed commit is not modelled. `delete_venue` and
  `delete_artist` are left out for the same reason: their effect (and any
  cascade over shows) lies with the database.
- The database guarantees (unique ids and names, both foreign keys of every
  show) are the `Records.WellFormed` assumption. The source cannot show them
  being enforced.
- The database assigns ids; `newId` and `id` are parameters.
- Insertion order of ties: `LatestVenues` and `LatestArtists` break ties in
  insert date by table order. The database's own tie order is not specified.
- SQL `ILIKE`: `%` and `_` inside the term would act as wildcards, and case
  folding depends on the collation. Both are modelled as ASCII
  case-insensitive substring containment.
- `Seqs.Sort`: stability is not stated in its contract. Only ordering and
  permutation are proved.
- Nullable columns (`phone`, `image_link`, `facebook_link`, `website` and
  `seeking_description`, app.py:42-48 and app.py:62-67) are modelled as plain
  strings, so a SQL `NULL` and `''` are not told apart.
- Each request calls `datetime.now()` several times; here one `now` is
  used.
- Clock reads, `format_datetime` (dateutil/babel), Flask-Moment,
  Flask-Migrate and logging: foreign library calls.
- The wtforms internals:
  - `DataRequired` on text fields and `URL()` on links are not modelled;
  - `Forms.VenueFormValid` and `Forms.ArtistFormValid` cover only the
    choice, selection and seeking-description checks;
  - the form's `datetime` parsing is not modelled.
- `get_ShowForm`: the artist and venue choices it lists, ordered by name, are
  not modelled as lists. `CreateShow` counts an id as a valid choice exactly
  when its row exists.
- The edit handlers for a missing id are not modelled: the GET redirects and
  the POST aborts with 500 after validation. `EditVenue` and `EditArtist`
  take an existing row.
- Concurrency: there is none in the code.
