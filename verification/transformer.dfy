/**
 * Record transformation (`transform_to_dataframe`): reject an empty input,
 * drop rows whose (track_name, artist_name, year) key already occurred,
 * keeping the first, then coerce `album_release` to a date or null.
 */
module RecordTransformer {
  import opened Wrappers
  import opened Records

  const EmptyRecordsMessage := "Extract tracks should not be null or empty"

  /** The `subset` of `drop_duplicates`. */
  datatype Key = Key(trackName: string, artistName: string, year: int)

  function KeyOf<D>(r: Record<D>): Key {
    Key(r.trackName, r.artistName, r.year)
  }

  ghost function KeySet<D>(rows: seq<Record<D>>): set<Key> {
    set k | 0 <= k < |rows| :: KeyOf(rows[k])
  }

  lemma KeySetSnoc<D>(rows: seq<Record<D>>, x: Record<D>)
    ensures KeySet(rows + [x]) == KeySet(rows) + {KeyOf(x)}
  {
    var s := rows + [x];
    assert KeyOf(s[|rows|]) in KeySet(s);
    forall key | key in KeySet(s) ensures key in KeySet(rows) + {KeyOf(x)} {
      var k :| 0 <= k < |s| && KeyOf(s[k]) == key;
      if k < |rows| { assert s[k] == rows[k]; }
    }
    forall key | key in KeySet(rows) ensures key in KeySet(s) {
      var k :| 0 <= k < |rows| && KeyOf(rows[k]) == key;
      assert s[k] == rows[k];
    }
  }

  /** Row `i` is the first row with its key. */
  ghost predicate IsFirst<D>(rows: seq<Record<D>>, i: int) {
    0 <= i < |rows| && KeyOf(rows[i]) !in KeySet(rows[..i])
  }

  ghost predicate UniqueKeys<D>(rows: seq<Record<D>>) {
    forall i, j :: 0 <= i < j < |rows| ==> KeyOf(rows[i]) != KeyOf(rows[j])
  }

  /**
   * `drop_duplicates(subset=["track_name", "artist_name", "year"])` with its
   * default `keep="first"`: a row stays when no earlier row has its key.
   */
  ghost function Dedup<D>(rows: seq<Record<D>>): (kept: seq<Record<D>>)
    ensures |kept| <= |rows|
    decreases |rows|
  {
    if |rows| == 0 then []
    else
      var init, last := rows[..|rows| - 1], rows[|rows| - 1];
      Dedup(init) + (if KeyOf(last) in KeySet(init) then [] else [last])
  }

  /** Dropping the last row changes no earlier row's first-occurrence status. */
  lemma IsFirstInit<D>(rows: seq<Record<D>>)
    requires |rows| > 0
    ensures forall i :: 0 <= i < |rows| - 1 ==> (IsFirst(rows, i) <==> IsFirst(rows[..|rows| - 1], i))
  {
    forall i | 0 <= i < |rows| - 1
      ensures IsFirst(rows, i) <==> IsFirst(rows[..|rows| - 1], i)
    {
      assert rows[..i] == rows[..|rows| - 1][..i];
    }
  }

  /** One more input row is kept exactly when its key is new. */
  lemma DedupStep<D>(rows: seq<Record<D>>, i: int)
    requires 0 <= i < |rows|
    ensures Dedup(rows[..i + 1])
      == Dedup(rows[..i]) + (if KeyOf(rows[i]) in KeySet(rows[..i]) then [] else [rows[i]])
    ensures KeySet(rows[..i + 1]) == KeySet(rows[..i]) + {KeyOf(rows[i])}
  {
    assert rows[..i + 1] == rows[..i] + [rows[i]];
    KeySetSnoc(rows[..i], rows[i]);
  }

  /**
   * The kept rows are exactly the first occurrences of the keys, in input
   * order: `idx` embeds the output in the input as a subsequence, each kept
   * row is the first with its key, and every first occurrence is kept.
   */
  lemma {:induction false} DedupFirsts<D>(rows: seq<Record<D>>) returns (idx: seq<int>)
    ensures |idx| == |Dedup(rows)|
    ensures forall a, b :: 0 <= a < b < |idx| ==> idx[a] < idx[b]
    ensures forall a :: 0 <= a < |idx| ==> IsFirst(rows, idx[a]) && Dedup(rows)[a] == rows[idx[a]]
    ensures forall i :: IsFirst(rows, i) ==> i in idx
    decreases |rows|
  {
    if |rows| == 0 {
      return [];
    }
    var n := |rows|;
    var init, last := rows[..n - 1], rows[n - 1];
    var idx0 := DedupFirsts(init);
    IsFirstInit(rows);
    var kept := Dedup(rows);
    if KeyOf(last) in KeySet(init) {
      idx := idx0;
      assert kept == Dedup(init);
      assert !IsFirst(rows, n - 1);
    } else {
      idx := idx0 + [n - 1];
      assert kept == Dedup(init) + [last];
      assert IsFirst(rows, n - 1);
      assert forall a :: 0 <= a < |idx0| ==> idx[a] == idx0[a] && kept[a] == Dedup(init)[a];
      assert idx[|idx0|] == n - 1 && kept[|idx0|] == last;
    }
  }

  /** No two kept rows share a key. */
  lemma DedupUniqueKeys<D>(rows: seq<Record<D>>)
    ensures UniqueKeys(Dedup(rows))
  {
    var kept := Dedup(rows);
    var idx := DedupFirsts(rows);
    forall a, b | 0 <= a < b < |kept|
      ensures KeyOf(kept[a]) != KeyOf(kept[b])
    {
      var ia, ib := idx[a], idx[b];
      assert IsFirst(rows, ib);
      assert rows[..ib][ia] == rows[ia];
      assert KeyOf(rows[ia]) in KeySet(rows[..ib]);
    }
  }

  /** Every key of the input is still present in the output. */
  lemma {:induction false} DedupKeySet<D>(rows: seq<Record<D>>)
    ensures KeySet(Dedup(rows)) == KeySet(rows)
    decreases |rows|
  {
    if |rows| > 0 {
      var n := |rows|;
      var init, last := rows[..n - 1], rows[n - 1];
      DedupKeySet(init);
      assert rows == init + [last];
      KeySetSnoc(init, last);
      if KeyOf(last) !in KeySet(init) {
        KeySetSnoc(Dedup(init), last);
      } else {
        assert Dedup(rows) == Dedup(init);
      }
    }
  }

  /** Rows whose keys are already distinct pass through unchanged. */
  lemma {:induction false} DedupUnique<D>(rows: seq<Record<D>>)
    requires UniqueKeys(rows)
    ensures Dedup(rows) == rows
    decreases |rows|
  {
    if |rows| > 0 {
      var n := |rows|;
      var init, last := rows[..n - 1], rows[n - 1];
      assert UniqueKeys(init);
      DedupUnique(init);
      assert KeyOf(last) !in KeySet(init);
      assert rows == init + [last];
    }
  }

  /** Deduplicating a deduplicated table changes nothing. */
  lemma DedupIdempotent<D>(rows: seq<Record<D>>)
    ensures Dedup(Dedup(rows)) == Dedup(rows)
  {
    DedupUniqueKeys(rows);
    DedupUnique(Dedup(rows));
  }

  /** `row` with `album_release` replaced by the coerced value. */
  function Coerced(row: RawRecord, release: Option<Date>): TypedRecord {
    Record(row.year, row.trackName, row.albumName, release,
           row.trackPopularity, row.trackDurationMs,
           row.artistName, row.artistFollowers, row.artistPopularity, row.artistGenres)
  }

  /**
   * `pd.to_datetime(column, errors="coerce")` with `parse` as the date
   * parser: an unparsable value becomes null; no row fails or disappears.
   */
  ghost function CoerceDates(parse: string -> Option<Date>, rows: seq<RawRecord>): (typed: seq<TypedRecord>)
    ensures |typed| == |rows|
    ensures forall k :: 0 <= k < |rows| ==> typed[k] == Coerced(rows[k], parse(rows[k].albumRelease))
    decreases |rows|
  {
    if |rows| == 0 then []
    else
      var last := rows[|rows| - 1];
      CoerceDates(parse, rows[..|rows| - 1]) + [Coerced(last, parse(last.albumRelease))]
  }

  /** The column reassignment computes `CoerceDates`. */
  lemma CoerceColumn(parse: string -> Option<Date>, rows: seq<RawRecord>, typed: seq<TypedRecord>)
    requires |typed| == |rows|
    requires forall k :: 0 <= k < |rows| ==> typed[k] == Coerced(rows[k], parse(rows[k].albumRelease))
    ensures typed == CoerceDates(parse, rows)
  {
  }

  /** Coercing dates changes no key. */
  lemma CoerceDatesKeys(parse: string -> Option<Date>, rows: seq<RawRecord>)
    ensures KeySet(CoerceDates(parse, rows)) == KeySet(rows)
    ensures UniqueKeys(rows) ==> UniqueKeys(CoerceDates(parse, rows))
  {
    var typed := CoerceDates(parse, rows);
    assert forall k :: 0 <= k < |rows| ==> KeyOf(typed[k]) == KeyOf(rows[k]);
    forall key | key in KeySet(rows) ensures key in KeySet(typed) {
      var k :| 0 <= k < |rows| && KeyOf(rows[k]) == key;
      assert KeyOf(typed[k]) == key;
    }
  }

  /** What `transform_to_dataframe` returns or raises. */
  ghost function Transform(parse: string -> Option<Date>, raw: seq<RawRecord>): Result<seq<TypedRecord>> {
    if |raw| == 0 then Err(ValueError(EmptyRecordsMessage))
    else Ok(CoerceDates(parse, Dedup(raw)))
  }

  /**
   * `transform_to_dataframe`: the in-place `drop_duplicates` as a loop over
   * the rows with the set of keys seen so far, then the column reassignment.
   */
  method TransformToDataFrame(parse: string -> Option<Date>, raw: seq<RawRecord>)
    returns (r: Result<seq<TypedRecord>>)
    ensures r == Transform(parse, raw)
  {
    if |raw| == 0 {
      return Err(ValueError(EmptyRecordsMessage));
    }
    var kept: seq<RawRecord> := [];
    var seen: set<Key> := {};
    for i := 0 to |raw|
      invariant kept == Dedup(raw[..i])
      invariant seen == KeySet(raw[..i])
    {
      var row := raw[i];
      if KeyOf(row) !in seen {
        kept := kept + [row];
      }
      seen := seen + {KeyOf(row)};
      DedupStep(raw, i);
    }
    assert raw[..|raw|] == raw;
    var typed := seq(|kept|, k requires 0 <= k < |kept| => Coerced(kept[k], parse(kept[k].albumRelease)));
    CoerceColumn(parse, kept, typed);
    return Ok(typed);
  }

  /**
   * The table `transform_to_dataframe` returns from a non-empty input: the
   * first occurrences of the keys, in input order, each with its release
   * date parsed or null and every other column unchanged; its keys are
   * unique and are all the keys of the input; it has at least one and at
   * most as many rows as the input.
   */
  lemma TransformTable(parse: string -> Option<Date>, raw: seq<RawRecord>) returns (idx: seq<int>)
    requires |raw| > 0
    ensures Transform(parse, raw).Ok?
    ensures 0 < |Transform(parse, raw).value| <= |raw|
    ensures |idx| == |Transform(parse, raw).value|
    ensures forall a, b :: 0 <= a < b < |idx| ==> idx[a] < idx[b]
    ensures forall a :: 0 <= a < |idx| ==>
      && IsFirst(raw, idx[a])
      && Transform(parse, raw).value[a] == Coerced(raw[idx[a]], parse(raw[idx[a]].albumRelease))
    ensures forall i :: IsFirst(raw, i) ==> i in idx
    ensures UniqueKeys(Transform(parse, raw).value)
    ensures KeySet(Transform(parse, raw).value) == KeySet(raw)
  {
    var kept := Dedup(raw);
    var table := CoerceDates(parse, kept);
    idx := DedupFirsts(raw);
    DedupUniqueKeys(raw);
    DedupKeySet(raw);
    CoerceDatesKeys(parse, kept);
    assert IsFirst(raw, 0) by {
      assert raw[..0] == [];
    }
    assert 0 in idx;
  }

  /** Deduplicating the transformed table again changes nothing. */
  lemma TransformIdempotent(parse: string -> Option<Date>, raw: seq<RawRecord>)
    requires |raw| > 0
    ensures Dedup(Transform(parse, raw).value) == Transform(parse, raw).value
  {
    var _ := TransformTable(parse, raw);
    DedupUnique(Transform(parse, raw).value);
  }
}
