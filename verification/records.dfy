/** The flat rows that the extractor produces and the transformer types. */
module Records {
  import opened Wrappers

  /** The value `pd.to_datetime` yields for a parsable release date. */
  datatype Date = Date(year: int, month: int, day: int)

  /**
   * One row, with its ten columns. `D` is the type of the `album_release`
   * column: a string as extracted, an optional date once coerced.
   */
  datatype Record<D> = Record(
    year: int,
    trackName: string,
    albumName: string,
    albumRelease: D,
    trackPopularity: int,
    trackDurationMs: int,
    artistName: string,
    artistFollowers: int,
    artistPopularity: int,
    artistGenres: string)

  type RawRecord = Record<string>
  type TypedRecord = Record<Option<Date>>
}
