/**
 * The shapes of the JSON objects the completion provider is asked for (the prompts of
 * `getMovieData` and `getMovieSuggestions`), as the rest of script.js reads them after `JSON.parse`.
 * A field that is missing or `null` is `None`; an empty string is kept as `Some("")`, because the
 * source tests these fields for truthiness and an empty string is falsy.
 */
module Records {
  import opened Wrappers
  import opened Dates

  /**
   * One entry of `actors`. The dates are already parsed: `None` stands for a missing, `null` or
   * empty `birthDate`/`deathDate`.
   */
  datatype Actor = Actor(
    name: Option<string>,
    birthDate: Option<CalendarDate>,
    deathDate: Option<CalendarDate>,
    character: Option<string>)

  /** The object returned for a title search. */
  datatype MovieRecord = MovieRecord(
    title: Option<string>,
    year: Option<string>,
    director: Option<string>,
    genre: Option<string>,
    plot: Option<string>,
    actors: Option<seq<Actor>>)

  /** One entry of `suggestions`; `confidence` is passed through whatever its value. */
  datatype Suggestion = Suggestion(title: Option<string>, year: Option<string>, confidence: Option<string>)

  /** The object returned for a plot search. */
  datatype SuggestionReply = SuggestionReply(suggestions: Option<seq<Suggestion>>)

  /** JavaScript truthiness of an optional string field: present and not empty. */
  predicate Truthy(s: Option<string>) {
    s.Some? && s.value != ""
  }
}
