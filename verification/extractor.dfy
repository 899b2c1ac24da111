/**
 * Track extraction (`extract_tracks`): walk the playlist dict in insertion
 * order, list each playlist's items in order, look up each track's first
 * listed artist and append one flat record per item.
 */
module TrackExtractor {
  import opened Wrappers
  import opened Catalog
  import opened Records
  import opened PlaylistResolver

  const EmptyIdsMessage := "Dictionary of playlist ids should not be null or empty"

  /** `", ".join(genres)`, as stored in the `artist_genres` column. */
  function JoinGenres(genres: seq<string>): string
    decreases |genres|
  {
    if |genres| == 0 then ""
    else if |genres| == 1 then genres[0]
    else genres[0] + ", " + JoinGenres(genres[1..])
  }

  /**
   * `s.split(", ")`: splits at each leftmost occurrence of the separator;
   * the empty string splits into one empty part.
   */
  function SplitGenres(s: string): (parts: seq<string>)
    ensures |parts| > 0
    decreases |s|
  {
    if |s| == 0 then [""]
    else if |s| >= 2 && s[0] == ',' && s[1] == ' ' then [""] + SplitGenres(s[2..])
    else
      var rest := SplitGenres(s[1..]);
      [[s[0]] + rest[0]] + rest[1..]
  }

  /** A part without a comma is glued onto the first part of what follows it. */
  lemma {:induction false} SplitGenresAfter(g: string, t: string)
    requires ',' !in g
    ensures SplitGenres(g + t) == [g + SplitGenres(t)[0]] + SplitGenres(t)[1..]
    decreases |g|
  {
    if |g| > 0 {
      var g' := g[1..];
      assert g == [g[0]] + g';
      assert (g + t)[0] == g[0] && g[0] != ',' && (g + t)[1..] == g' + t;
      SplitGenresAfter(g', t);
      var parts := SplitGenres(t);
      var rest := SplitGenres(g' + t);
      assert rest[0] == g' + parts[0] && rest[1..] == parts[1..];
      assert [g[0]] + rest[0] == g + parts[0];
    } else {
      var parts := SplitGenres(t);
      assert g + t == t && g + parts[0] == parts[0];
      assert parts == [parts[0]] + parts[1..];
    }
  }

  /**
   * The joined genre string splits back into the genres, as long as there is
   * at least one genre and none contains a comma.
   */
  lemma {:induction false} SplitJoinGenres(genres: seq<string>)
    requires |genres| > 0
    requires forall i :: 0 <= i < |genres| ==> ',' !in genres[i]
    ensures SplitGenres(JoinGenres(genres)) == genres
    decreases |genres|
  {
    var g := genres[0];
    if |genres| == 1 {
      SplitGenresAfter(g, "");
      assert g + "" == g;
    } else {
      var rest := JoinGenres(genres[1..]);
      SplitJoinGenres(genres[1..]);
      var sep := ", " + rest;
      assert JoinGenres(genres) == g + sep;
      assert sep[0] == ',' && sep[1] == ' ' && sep[2..] == rest;
      assert SplitGenres(sep) == [""] + genres[1..];
      SplitGenresAfter(g, sep);
      assert g + "" == g;
      assert genres == [g] + genres[1..];
    }
  }

  /** The dict appended for one item of the playlist of `year`. */
  function Enrich(year: int, track: Track, artist: Artist): RawRecord {
    Record(year, track.name, track.album.name, track.album.releaseDate,
           track.popularity, track.durationMs,
           artist.name, artist.followers, artist.popularity, JoinGenres(artist.genres))
  }

  /** The items of the `k`-th playlist in the dict's order. */
  ghost function Items(sp: Client, d: PlaylistIds, k: int): seq<Track>
    requires d.Valid() && 0 <= k < |d.years|
  {
    assert d.years[k] in d.years;
    sp.playlistTracks(d.ids[d.years[k]])
  }

  /** Every track lists an artist, so `track["artists"][0]` succeeds. */
  ghost predicate Credited(items: seq<Track>) {
    forall j :: 0 <= j < |items| ==> |items[j].artistIds| > 0
  }

  ghost predicate CreditedUpTo(sp: Client, d: PlaylistIds, n: int)
    requires d.Valid() && n <= |d.years|
  {
    forall k :: 0 <= k < n ==> Credited(Items(sp, d, k))
  }

  /** The number of items in the first `n` playlists. */
  ghost function ItemCount(sp: Client, d: PlaylistIds, n: int): nat
    requires d.Valid() && n <= |d.years|
    decreases n
  {
    if n <= 0 then 0 else ItemCount(sp, d, n - 1) + |Items(sp, d, n - 1)|
  }

  /** The records of one playlist: one per item, in item order. */
  ghost function ItemRecords(sp: Client, year: int, items: seq<Track>): (rs: seq<RawRecord>)
    requires Credited(items)
    ensures |rs| == |items|
    ensures forall j :: 0 <= j < |items| ==>
      rs[j] == Enrich(year, items[j], sp.artist(items[j].artistIds[0]))
    decreases |items|
  {
    if |items| == 0 then []
    else
      var last := items[|items| - 1];
      ItemRecords(sp, year, items[..|items| - 1]) + [Enrich(year, last, sp.artist(last.artistIds[0]))]
  }

  /** The records of the first `n` playlists: one per item, playlist by playlist. */
  ghost function PlaylistRecords(sp: Client, d: PlaylistIds, n: int): (rs: seq<RawRecord>)
    requires d.Valid() && 0 <= n <= |d.years| && CreditedUpTo(sp, d, n)
    ensures |rs| == ItemCount(sp, d, n)
    decreases n
  {
    if n == 0 then []
    else PlaylistRecords(sp, d, n - 1) + ItemRecords(sp, d.years[n - 1], Items(sp, d, n - 1))
  }

  /**
   * What `extract_tracks` returns or raises: an empty dict is rejected
   * before any catalog call; a track without artists makes the lookup fail.
   */
  ghost function Extract(sp: Client, d: PlaylistIds): Result<seq<RawRecord>>
    requires d.Valid()
  {
    if |d.years| == 0 then Err(ValueError(EmptyIdsMessage))
    else if !CreditedUpTo(sp, d, |d.years|) then Err(IndexError)
    else Ok(PlaylistRecords(sp, d, |d.years|))
  }

  /**
   * The nested loops of `extract_tracks`; `calls` counts the catalog calls:
   * none when the dict is rejected, one per playlist and one per item when
   * the extraction succeeds.
   */
  method ExtractTracks(sp: Client, d: PlaylistIds) returns (r: Result<seq<RawRecord>>, ghost calls: nat)
    requires d.Valid()
    ensures r == Extract(sp, d)
    ensures |d.years| == 0 ==> calls == 0
    ensures r.Ok? ==> calls == |d.years| + ItemCount(sp, d, |d.years|)
  {
    calls := 0;
    if |d.years| == 0 {
      return Err(ValueError(EmptyIdsMessage)), calls;
    }
    var data: seq<RawRecord> := [];
    for i := 0 to |d.years|
      invariant CreditedUpTo(sp, d, i)
      invariant data == PlaylistRecords(sp, d, i)
      invariant calls == i + ItemCount(sp, d, i)
    {
      var year := d.years[i];
      assert year in d.years;
      var items := sp.playlistTracks(d.ids[year]);
      assert items == Items(sp, d, i);
      calls := calls + 1;
      for j := 0 to |items|
        invariant Credited(items[..j])
        invariant data == PlaylistRecords(sp, d, i) + ItemRecords(sp, year, items[..j])
        invariant calls == i + ItemCount(sp, d, i) + 1 + j
      {
        var track := items[j];
        if |track.artistIds| == 0 {
          UncreditedItem(sp, d, i, j);
          return Err(IndexError), calls;
        }
        var artist := sp.artist(track.artistIds[0]);
        calls := calls + 1;
        ItemRecordsStep(sp, year, items, j);
        data := data + [Enrich(year, track, artist)];
      }
      assert items[..|items|] == items;
      PlaylistRecordsStep(sp, d, i);
    }
    return Ok(data), calls;
  }

  /** One more item of a playlist adds its record at the end. */
  lemma ItemRecordsStep(sp: Client, year: int, items: seq<Track>, j: int)
    requires 0 <= j < |items| && Credited(items[..j]) && |items[j].artistIds| > 0
    ensures Credited(items[..j + 1])
    ensures ItemRecords(sp, year, items[..j + 1])
      == ItemRecords(sp, year, items[..j]) + [Enrich(year, items[j], sp.artist(items[j].artistIds[0]))]
  {
    assert items[..j + 1][..j] == items[..j];
  }

  /** One more playlist appends its item records and its item count. */
  lemma PlaylistRecordsStep(sp: Client, d: PlaylistIds, i: int)
    requires d.Valid() && 0 <= i < |d.years| && CreditedUpTo(sp, d, i) && Credited(Items(sp, d, i))
    ensures CreditedUpTo(sp, d, i + 1)
    ensures PlaylistRecords(sp, d, i + 1)
      == PlaylistRecords(sp, d, i) + ItemRecords(sp, d.years[i], Items(sp, d, i))
    ensures ItemCount(sp, d, i + 1) == ItemCount(sp, d, i) + |Items(sp, d, i)|
  {
  }

  /** A track without artists makes the whole extraction fail. */
  lemma UncreditedItem(sp: Client, d: PlaylistIds, k: int, j: int)
    requires d.Valid() && 0 <= k < |d.years| && 0 <= j < |Items(sp, d, k)|
    requires |Items(sp, d, k)[j].artistIds| == 0
    ensures Extract(sp, d) == Err(IndexError)
  {
    assert !Credited(Items(sp, d, k));
  }

  /** The records of a prefix of the playlists are a prefix of the records. */
  lemma {:induction false} PlaylistRecordsPrefix(sp: Client, d: PlaylistIds, n: int, m: int)
    requires d.Valid() && 0 <= n <= m <= |d.years| && CreditedUpTo(sp, d, m)
    ensures CreditedUpTo(sp, d, n)
    ensures PlaylistRecords(sp, d, n) <= PlaylistRecords(sp, d, m)
    decreases m - n
  {
    if n < m {
      PlaylistRecordsPrefix(sp, d, n, m - 1);
    }
  }

  /**
   * Order and provenance: the record at offset `ItemCount(k) + j` is the one
   * built from item `j` of the `k`-th playlist: its year is that playlist's
   * key, its track fields come from the item's track, its artist fields from
   * the lookup of the track's first listed artist.
   */
  lemma RecordAt(sp: Client, d: PlaylistIds, k: int, j: int)
    requires d.Valid() && Extract(sp, d).Ok?
    requires 0 <= k < |d.years| && 0 <= j < |Items(sp, d, k)|
    ensures ItemCount(sp, d, k) + j < |Extract(sp, d).value|
    ensures
      var track := Items(sp, d, k)[j];
      Extract(sp, d).value[ItemCount(sp, d, k) + j]
        == Enrich(d.years[k], track, sp.artist(track.artistIds[0]))
  {
    PlaylistRecordsPrefix(sp, d, k + 1, |d.years|);
    var front := PlaylistRecords(sp, d, k + 1);
    assert front == PlaylistRecords(sp, d, k) + ItemRecords(sp, d.years[k], Items(sp, d, k));
    assert front[ItemCount(sp, d, k) + j] == ItemRecords(sp, d.years[k], Items(sp, d, k))[j];
  }

  /**
   * Every position of the record list belongs to exactly such an item:
   * there are no records other than the ones `RecordAt` describes.
   */
  lemma {:induction false} RecordOrigin(sp: Client, d: PlaylistIds, n: int, m: int) returns (k: int, j: int)
    requires d.Valid() && 0 <= n <= |d.years| && 0 <= m < ItemCount(sp, d, n)
    ensures 0 <= k < n && 0 <= j < |Items(sp, d, k)|
    ensures m == ItemCount(sp, d, k) + j
    decreases n
  {
    if m < ItemCount(sp, d, n - 1) {
      k, j := RecordOrigin(sp, d, n - 1, m);
    } else {
      k, j := n - 1, m - ItemCount(sp, d, n - 1);
    }
  }

  /** Every record carries the year of a playlist in the dict. */
  lemma RecordYears(sp: Client, d: PlaylistIds)
    requires d.Valid() && Extract(sp, d).Ok?
    ensures forall r :: r in Extract(sp, d).value ==> r.year in d.ids
  {
    var rs := Extract(sp, d).value;
    forall r | r in rs
      ensures r.year in d.ids
    {
      var m :| 0 <= m < |rs| && rs[m] == r;
      var k, j := RecordOrigin(sp, d, |d.years|, m);
      RecordAt(sp, d, k, j);
    }
  }
}
