/**
 * Playlist resolution (`get_playlist_ids`): one search per requested year,
 * folded into a dict from year to the id of the first playlist found.
 */
module PlaylistResolver {
  import opened Catalog

  /**
   * A Python dict from year to playlist id: `ids` holds its entries and
   * `years` its keys in insertion order, which is the order in which the
   * extractor later walks it.
   */
  datatype PlaylistIds = PlaylistIds(years: seq<int>, ids: map<int, string>) {

    /** The keys are listed once each, and exactly the keys are listed. */
    ghost predicate Valid() {
      && (forall i, j :: 0 <= i < j < |years| ==> years[i] != years[j])
      && (forall y :: y in ids <==> y in years)
    }

    /** `d[year] = id`: a new key goes last, an existing key keeps its place. */
    function Put(year: int, id: string): (d: PlaylistIds)
      ensures Valid() ==> d.Valid()
      ensures d.ids == ids[year := id] && years <= d.years
      ensures Valid() && year in ids ==> d.years == years
    {
      if year in ids then PlaylistIds(years, ids[year := id])
      else PlaylistIds(years + [year], ids[year := id])
    }
  }

  const NoPlaylists := PlaylistIds([], map[])

  /**
   * The dict `get_playlist_ids` returns: a year gets an entry exactly when
   * its search found a playlist, and the entry is the first hit's id. A
   * year without a hit is skipped (a warning is logged) and no error is
   * raised.
   */
  ghost function Resolve(sp: Client, years: seq<int>): (d: PlaylistIds)
    ensures d.Valid()
    ensures forall y :: y in d.ids <==> y in years && |sp.search(y)| > 0
    ensures forall y :: y in d.ids ==> d.ids[y] == sp.search(y)[0]
    decreases |years|
  {
    if |years| == 0 then NoPlaylists
    else
      var year := years[|years| - 1];
      var d := Resolve(sp, years[..|years| - 1]);
      assert years == years[..|years| - 1] + [year];
      var hits := sp.search(year);
      if |hits| > 0 then d.Put(year, hits[0]) else d
  }

  /** The loop of `get_playlist_ids`; `searches` counts the catalog calls. */
  method GetPlaylistIds(sp: Client, years: seq<int>) returns (d: PlaylistIds, ghost searches: nat)
    ensures d == Resolve(sp, years)
    ensures searches == |years|
  {
    d := NoPlaylists;
    searches := 0;
    for i := 0 to |years|
      invariant d == Resolve(sp, years[..i])
      invariant searches == i
    {
      var hits := sp.search(years[i]);
      searches := searches + 1;
      if |hits| > 0 {
        d := d.Put(years[i], hits[0]);
      }
      assert years[..i + 1][..i] == years[..i];
    }
    assert years[..|years|] == years;
  }

  /** When every year of a repetition-free list is found, the dict has them all, in order. */
  lemma {:induction false} ResolveAllFound(sp: Client, years: seq<int>)
    requires forall i, j :: 0 <= i < j < |years| ==> years[i] != years[j]
    requires forall i :: 0 <= i < |years| ==> |sp.search(years[i])| > 0
    ensures Resolve(sp, years).years == years
    decreases |years|
  {
    if |years| > 0 {
      var n := |years|;
      var init, x := years[..n - 1], years[n - 1];
      assert years == init + [x];
      assert forall i :: 0 <= i < |init| ==> init[i] == years[i];
      ResolveAllFound(sp, init);
      assert x !in init;
      assert |sp.search(x)| > 0;
    }
  }

  /** `p` is the position where `y` first occurs in `s`. */
  ghost predicate FirstAt(s: seq<int>, y: int, p: int) {
    0 <= p < |s| && s[p] == y && forall q :: 0 <= q < p ==> s[q] != y
  }

  lemma FirstAtInPrefix(s: seq<int>, y: int, p: int)
    requires |s| > 0 && FirstAt(s, y, p) && y in s[..|s| - 1]
    ensures p < |s| - 1 && FirstAt(s[..|s| - 1], y, p)
  {
    var k :| 0 <= k < |s| - 1 && s[..|s| - 1][k] == y;
    assert s[k] == y;
  }

  /**
   * The dict lists its years in the order in which they first appear in the
   * requested list.
   */
  lemma {:induction false} ResolveOrder(sp: Client, years: seq<int>, i: int, j: int, p: int, q: int)
    requires 0 <= i < j < |Resolve(sp, years).years|
    requires FirstAt(years, Resolve(sp, years).years[i], p)
    requires FirstAt(years, Resolve(sp, years).years[j], q)
    ensures p < q
    decreases |years|
  {
    var n := |years|;
    var init, x := years[..n - 1], years[n - 1];
    assert years == init + [x];
    var d0, d := Resolve(sp, init), Resolve(sp, years);
    var yi, yj := d.years[i], d.years[j];
    if |sp.search(x)| > 0 && x !in d0.ids {
      assert d.years == d0.years + [x];
      assert yi == d0.years[i] && yi in d0.ids;
      FirstAtInPrefix(years, yi, p);
      if j < |d0.years| {
        assert yj == d0.years[j] && yj in d0.ids;
        FirstAtInPrefix(years, yj, q);
        ResolveOrder(sp, init, i, j, p, q);
      } else {
        assert yj == x && x !in init;
        assert q == n - 1;
      }
    } else {
      assert d.years == d0.years;
      assert yi in d0.ids && yj in d0.ids;
      FirstAtInPrefix(years, yi, p);
      FirstAtInPrefix(years, yj, q);
      ResolveOrder(sp, init, i, j, p, q);
    }
  }
}
