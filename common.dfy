/** Values shared by both revisions of the subtitle tool: the canonical subtitle
    record, the search parameters handed to every search engine, and the
    error-carrying wrappers that stand for Go's `(value, error)` returns. */
module Common {

  /** A value that may be absent (Go's nil error or nil pointer). */
  datatype Option<+T> = None | Some(value: T)

  /** A Go `(value, error)` pair where exactly one half is meaningful. */
  datatype Result<+T> = Ok(value: T) | Err(error: string)

  /** A Go call that returns only an `error`. */
  datatype Outcome = Pass | Fail(error: string)

  /** The canonical subtitle record (podnapisi.Subtitle; the struct `Subtitle`
      of the older revision has the same six fields). */
  datatype Subtitle = Subtitle(
    title: string,
    releases: seq<string>,
    season: string,
    episode: string,
    language: string,
    url: string)

  /** The Go zero value of `Subtitle`: every string empty, no releases. */
  const ZeroSubtitle := Subtitle("", [], "", "", "", "")

  /** The search parameters every engine receives (podnapisi.ShowSearchParams,
      restricted to the fields the tool fills in). */
  datatype ShowSearchParams = ShowSearchParams(
    name: string,
    season: string,
    episode: string,
    language: string,
    limit: int)

  /** Flag defaults that double as "not passed" sentinels. */
  const ShowNotPassed := "MISSING"
  const RequiredIntNotPassed := "0"
  const NoLimit := 0
  const CurrentFolder := "."
  const NoEditor := ""
}
