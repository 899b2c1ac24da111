# spotify_hits ETL: a verified model of the pipeline's decision logic

The repository's pipeline (`src/etl.py`) pulls the "Top Hits of {year}"
playlists from the Spotify catalog, flattens every playlist item into one
record enriched with its artist, and turns the records into a deduplicated
table whose `album_release` column is typed as a date. This project models
the three stages that make decisions:

- **`get_playlist_ids`** (`resolver.dfy`, module `PlaylistResolver`): one
  search per requested year, folded into a dict from year to the id of the
  first playlist found. The Python dict is the datatype `PlaylistIds`: its
  entries plus its keys in insertion order (a new key goes last; assigning
  to an existing key keeps its place).
- **`extract_tracks`** (`extractor.dfy`, module `TrackExtractor`): rejects
  an empty dict, then walks it in insertion order and each playlist's items
  in order, looking up the artist of each track's first listed artist id
  and appending one record; genres are joined with `", "`.
- **`transform_to_dataframe`** (`transformer.dfy`, module
  `RecordTransformer`): rejects an empty input, drops rows whose
  (track_name, artist_name, year) key already occurred (keeping the first,
  the `drop_duplicates` default), then coerces `album_release` to a date or
  null.

The Spotify client is the datatype `Catalog.Client` holding three pure
functions: `search` (the playlist ids returned for the "Top Hits of {year}"
query with `type="playlist"`, `limit=1`), `playlistTracks` (a playlist's
`items`, each reduced to its track) and `artist` (the artist lookup).
`pd.to_datetime(..., errors="coerce")` is modelled value by value, as an
arbitrary partial parser `parse: string -> Option<Date>` passed as a
parameter (see `RecordTransformer.CoerceDates` under "Left out"). With these fixed,
each stage is sequential and deterministic. Each stage is a method with
loops (`GetPlaylistIds`, `ExtractTracks`, `TransformToDataFrame`) proved
equal to a ghost specification function (`Resolve`, `Extract`,
`Transform`), and the promised properties are proved about those
functions. The two catalog-calling methods also return a ghost count of
catalog calls, so that "no call before the validation error" and "one call
per playlist and one per item" are stated.

Python exceptions become `Wrappers.Result` errors: `ValueError` with the
source's message for an empty input, and `IndexError` for a track whose
`artists` list is empty (`track["artists"][0]` fails).

`scenarios.dfy` restates the unit and integration tests' mock scenarios
(each with its own fixture) as lemmas about the model.

Two behaviours one might expect of such a pipeline are absent from the code,
and the model follows the code:

- `get_playlist_ids([])` returns `{}`: an empty year list is not rejected
  (src/etl.py:50-59).
- `extract_tracks` takes no truncation flag and applies no 10-track limit;
  `src/main.py:11` passes a third argument that `extract_tracks`
  (src/etl.py:63) does not accept.

## Model

| member | source | states |
|---|---|---|
| `PlaylistResolver.PlaylistIds.Put` | src/etl.py:55 | dict assignment keeps the dict well formed (each key listed once, exactly the keys listed); the entry is set, earlier keys keep their order, and an existing key keeps its place |
| `PlaylistResolver.Resolve` | src/etl.py:50-59 | a year is a key of the result exactly when it was requested and its search returned at least one playlist; its value is the first hit's id; a year without hits is absent and raises nothing; an empty year list gives an empty dict |
| `PlaylistResolver.GetPlaylistIds` | src/etl.py:50-59 | the loop builds exactly the dict `Resolve` describes, with one search per requested year |
| `PlaylistResolver.ResolveAllFound` | src/etl.py:51-55 | when every year of a repetition-free list has a hit, the dict has exactly those years, in request order |
| `PlaylistResolver.ResolveOrder` | src/etl.py:51-55 | the dict lists its years in the order of their first appearance in the request |
| `TrackExtractor.SplitJoinGenres` | src/etl.py:97 | the `", "`-joined genre string splits back into the genres (non-empty list, no comma inside a genre) |
| `TrackExtractor.ItemRecords` | src/etl.py:84-98 | one record per playlist item, in item order; record `j` is built from item `j` with the artist of its first listed artist id |
| `TrackExtractor.PlaylistRecords` | src/etl.py:80-99 | the number of records equals the total number of items over the playlists walked |
| `TrackExtractor.ExtractTracks` | src/etl.py:78-99 | the nested loops return what `Extract` describes: a `ValueError` for an empty dict with zero catalog calls, an `IndexError` when a track lists no artist, otherwise the records of all playlists in dict order after one call per playlist and one per item |
| `TrackExtractor.UncreditedItem` | src/etl.py:84-86 | a track whose artist list is empty makes the whole extraction fail with `IndexError` |
| `TrackExtractor.PlaylistRecordsPrefix` | src/etl.py:80-99 | the records of the first playlists are a prefix of the whole record list |
| `TrackExtractor.RecordAt` | src/etl.py:81-98 | the record at offset (items of earlier playlists) + `j` has the playlist's year, item `j`'s track name, album name, release date, popularity and duration, and the name, followers, popularity and `", "`-joined genres of the track's first listed artist |
| `TrackExtractor.RecordOrigin` | src/etl.py:80-99 | every record position belongs to exactly such an item of one playlist: there are no other records |
| `TrackExtractor.RecordYears` | src/etl.py:81-88 | every record carries the year of a playlist in the dict |
| `RecordTransformer.Dedup` | src/etl.py:123 | deduplication never adds rows |
| `RecordTransformer.DedupFirsts` | src/etl.py:123 | the kept rows are a subsequence of the input made of exactly the first occurrence of each key, in input order |
| `RecordTransformer.DedupUniqueKeys` | src/etl.py:123 | no two kept rows share (track_name, artist_name, year) |
| `RecordTransformer.DedupKeySet` | src/etl.py:123 | every key of the input is still present after deduplication |
| `RecordTransformer.DedupUnique` | src/etl.py:123 | rows whose keys are already distinct pass through unchanged |
| `RecordTransformer.DedupIdempotent` | src/etl.py:123 | deduplicating twice equals deduplicating once |
| `RecordTransformer.CoerceDates` | src/etl.py:125 | date coercion keeps every row and every other column; each `album_release` becomes its parse, or null when unparsable |
| `RecordTransformer.CoerceDatesKeys` | src/etl.py:125 | date coercion changes no row's key, so unique keys stay unique |
| `RecordTransformer.TransformToDataFrame` | src/etl.py:117-127 | the deduplication loop and the column reassignment return what `Transform` describes: a `ValueError` for an empty input, otherwise the deduplicated rows with coerced dates |
| `RecordTransformer.TransformTable` | src/etl.py:117-127 | for a non-empty input the table is returned, never an error; it has between one row and as many rows as the input; its rows are the first occurrences of the keys in input order with dates coerced; its keys are unique and are all the input's keys |
| `RecordTransformer.TransformIdempotent` | src/etl.py:123-125 | deduplicating the returned table again leaves it unchanged |
| `Scenarios.MockPlaylistIds` | tests/test_unit.py:44-48 | with the mock client, resolving [2023] gives {2023: "playlist_id_2023"} |
| `Scenarios.MockExtraction` | tests/test_unit.py:54-60 | with the mock client, extraction gives one record: "Mock Song" by "Mock Artist" with genres "pop, dance pop" |
| `Scenarios.DuplicateRowsCollapse` | tests/test_unit.py:65-73 | two identical rows transform into one |
| `Scenarios.MockPipeline` | tests/test_integration.py:39-54 | on the integration fixture, resolving [2023] gives {2023: "playlist_id_2023"}, extraction gives the one "Mock Track" record by "Mock Artist" (123456 followers, popularity 90, genres "pop, electropop"), and the table has that one row with the parsed release date |

## Left out

- `init_spotify_api` (src/etl.py:13-34): building the authenticated client is a foreign-library and network call; the model starts from a fixed `Client`.
- `save_to_csv` (src/etl.py:131-157): filesystem I/O and CSV serialisation.
- `src/main.py`: configuration and entry-point plumbing; its calls do not match the signatures in `src/etl.py`.
- Logging calls and the warning for a year without a playlist.
- The search query text and its parameters: `search` is indexed by the year; the string "Top Hits of {year}" is part of the client abstraction.
- Pagination: `playlist_tracks` returns only the first page of items, and the code does not follow further pages; the model takes the returned items as given.
- `None` inputs: `not playlist_ids` and `not raw_data` also reject `None`; values here cannot be absent, so only the empty case is modelled.
- Malformed catalog responses other than a track with no artists (missing keys, null tracks): they raise Python exceptions that the model does not represent.
- pandas internals: column dtypes, the row index (which keeps the original labels after `drop_duplicates`) and the real behaviour of `pd.to_datetime`, replaced by the abstract `parse`.
- The order and timing of the catalog calls: they are pure functions here, so only their number is modelled.
- `RecordTransformer.CoerceDates`: assumes each `album_release` parses on its own. Given a whole column, pandas (2.0 and later) infers one format from the first non-null value and applies it to every row, so a year-only `"1998"` after a `"2023-01-01"` row becomes null; whether a row parses can therefore depend on the other kept rows, which `parse(row.albumRelease)` does not express. The proved properties (row count, keys, no error) do not depend on this.
- `TrackExtractor.ExtractTracks`: the number of catalog calls is stated only for the rejected-dict and successful paths, not for the `IndexError` path.
