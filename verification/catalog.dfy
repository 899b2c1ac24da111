/**
 * The Spotify catalog as the pipeline sees it. The client object is replaced
 * by the three calls the pipeline makes on it, each a pure function: with the
 * client fixed, every stage is sequential and deterministic.
 */
module Catalog {

  datatype Album = Album(name: string, releaseDate: string)

  /** The `track` of one playlist item; `artistIds` lists its artists in order. */
  datatype Track = Track(
    name: string,
    album: Album,
    popularity: int,
    durationMs: int,
    artistIds: seq<string>)

  datatype Artist = Artist(
    name: string,
    followers: int,
    popularity: int,
    genres: seq<string>)

  /**
   * `search(year)` is the list of playlist ids returned for the playlist
   * query "Top Hits of {year}" with limit 1; `playlistTracks(id)` is the
   * `items` list of a playlist, each reduced to its track; `artist(id)` is
   * the artist lookup.
   */
  datatype Client = Client(
    search: int -> seq<string>,
    playlistTracks: string -> seq<Track>,
    artist: string -> Artist)
}
