/**
 * The repository's unit and integration scenarios, stated against the model.
 * Each fixture is a client whose search always finds "playlist_id_2023",
 * whose playlist holds one track, and whose artist lookup always returns the
 * same artist; the unit and integration tests use different track and
 * artist values.
 */
module Scenarios {
  import opened Wrappers
  import opened Catalog
  import opened Records
  import opened PlaylistResolver
  import opened TrackExtractor
  import opened RecordTransformer

  const MockTrack := Track("Mock Song", Album("Mock Album", "2023-01-01"), 80, 210000, ["artist_id"])
  const MockArtist := Artist("Mock Artist", 1000000, 85, ["pop", "dance pop"])
  const MockClient := Client(year => ["playlist_id_2023"], id => [MockTrack], id => MockArtist)

  const MockRecord: RawRecord :=
    Record(2023, "Mock Song", "Mock Album", "2023-01-01", 80, 210000,
           "Mock Artist", 1000000, 85, "pop, dance pop")

  /** The integration test's fixture: a different track and artist. */
  const IntegrationTrack := Track("Mock Track", Album("Mock Album", "2023-01-01"), 85, 210000, ["artist_id"])
  const IntegrationArtist := Artist("Mock Artist", 123456, 90, ["pop", "electropop"])
  const IntegrationClient := Client(year => ["playlist_id_2023"], id => [IntegrationTrack], id => IntegrationArtist)

  const IntegrationRecord: RawRecord :=
    Record(2023, "Mock Track", "Mock Album", "2023-01-01", 85, 210000,
           "Mock Artist", 123456, 90, "pop, electropop")

  const MockIds := PlaylistIds([2023], map[2023 := "playlist_id_2023"])

  /** A client whose search for 2023 finds "playlist_id_2023" resolves [2023] to that entry. */
  lemma ResolveSingleYear(sp: Client)
    requires sp.search(2023) == ["playlist_id_2023"]
    ensures Resolve(sp, [2023]) == MockIds
  {
    assert [2023][..0] == [];
  }

  /** A one-track playlist yields exactly that track's enriched record. */
  lemma ExtractSingleTrack(sp: Client, track: Track, artist: Artist)
    requires sp.playlistTracks("playlist_id_2023") == [track]
    requires |track.artistIds| > 0 && sp.artist(track.artistIds[0]) == artist
    ensures MockIds.Valid() && Extract(sp, MockIds) == Ok([Enrich(2023, track, artist)])
  {
    var d := MockIds;
    assert Items(sp, d, 0) == [track];
    assert CreditedUpTo(sp, d, 1);
    assert [track][..0] == [];
    assert ItemRecords(sp, 2023, [track]) == [Enrich(2023, track, artist)];
    assert PlaylistRecords(sp, d, 1) == [Enrich(2023, track, artist)];
  }

  /** A single row is kept, with its release date parsed. */
  lemma TransformSingleRow(parse: string -> Option<Date>, row: RawRecord)
    ensures Transform(parse, [row]) == Ok([Coerced(row, parse(row.albumRelease))])
  {
    assert [row][..0] == [];
    assert KeySet<string>([]) == {};
    assert Dedup([row]) == [row];
    assert CoerceDates(parse, [row]) == [Coerced(row, parse(row.albumRelease))];
  }

  /** Resolving [2023] yields {2023: "playlist_id_2023"}. */
  lemma MockPlaylistIds()
    ensures Resolve(MockClient, [2023]) == MockIds
  {
    ResolveSingleYear(MockClient);
  }

  /** `", ".join(["pop", "dance pop"])` is "pop, dance pop". */
  lemma MockGenres()
    ensures JoinGenres(MockArtist.genres) == "pop, dance pop"
  {
    assert MockArtist.genres[1..] == ["dance pop"];
  }

  /** Extracting {2023: "playlist_id_2023"} yields the one enriched record. */
  lemma MockExtraction()
    ensures MockIds.Valid() && Extract(MockClient, MockIds) == Ok([MockRecord])
  {
    MockGenres();
    ExtractSingleTrack(MockClient, MockTrack, MockArtist);
  }

  /** Two identical rows collapse to one. */
  lemma DuplicateRowsCollapse(parse: string -> Option<Date>, row: RawRecord)
    ensures Transform(parse, [row, row]) == Ok([Coerced(row, parse(row.albumRelease))])
  {
    assert [row, row][..1] == [row];
    assert [row][..0] == [];
    assert KeySet<string>([]) == {};
    assert Dedup([row]) == [row];
    assert KeyOf([row][0]) in KeySet([row]);
    assert Dedup([row, row]) == [row];
    assert CoerceDates(parse, [row]) == [Coerced(row, parse(row.albumRelease))];
  }

  /**
   * The whole pipeline on the integration client: the dict is
   * {2023: "playlist_id_2023"}, extraction yields the one "Mock Track"
   * record with the integration artist's values, and the table has that
   * one row with the parsed release date.
   */
  lemma MockPipeline(parse: string -> Option<Date>)
    ensures Resolve(IntegrationClient, [2023]) == MockIds
    ensures MockIds.Valid() && Extract(IntegrationClient, MockIds) == Ok([IntegrationRecord])
    ensures Transform(parse, [IntegrationRecord]) == Ok([Coerced(IntegrationRecord, parse("2023-01-01"))])
  {
    ResolveSingleYear(IntegrationClient);
    assert IntegrationArtist.genres[1..] == ["electropop"];
    assert JoinGenres(IntegrationArtist.genres) == "pop, electropop";
    ExtractSingleTrack(IntegrationClient, IntegrationTrack, IntegrationArtist);
    TransformSingleRow(parse, IntegrationRecord);
  }
}
