/**
 * The search flows of `MovieTimelineApp` without the DOM: the blank-query guards of
 * `searchMovie` and `searchByPlot`, the request and error-message choice of `getMovieData` and
 * `getMovieSuggestions`, and the checks of `displayResults` and `displaySuggestions`.
 * The completion provider (`fetch`) and `JSON.parse` are parameters.
 */
module App {
  import opened Wrappers
  import opened Dates
  import opened Text
  import opened Extraction
  import opened Records
  import opened Timeline

  /** The errors a search can end in; each is shown to the user as `Message(f)`. */
  datatype Failure =
    | EmptyTitleQuery
    | EmptyPlotQuery
    | RequestFailed(message: string)
    | NoJsonObject
    | UnreadableMovie
    | UnreadableSuggestions
    | IncompleteMovie
    | NoSuggestions

  function Message(f: Failure): string {
    match f
    case EmptyTitleQuery => "Por favor, digite o nome de um filme."
    case EmptyPlotQuery => "Por favor, digite uma sinopse."
    case RequestFailed(m) => m
    case NoJsonObject => "Resposta da API não contém JSON válido"
    case UnreadableMovie => "Erro ao interpretar dados do filme"
    case UnreadableSuggestions => "Erro ao interpretar sugestões de filmes"
    case IncompleteMovie => "Filme não encontrado ou dados incompletos"
    case NoSuggestions => "Nenhuma sugestão de filme encontrada para esta sinopse"
  }

  /**
   * Every failure with a fixed text has its own text, so the user can tell the error kinds apart;
   * a failed request shows whatever message was chosen for it.
   */
  lemma MessagesTellFailuresApart(f: Failure, g: Failure)
    ensures f.RequestFailed? ==> Message(f) == f.message
    ensures !f.RequestFailed? && !g.RequestFailed? && f != g ==> Message(f) != Message(g)
  {
  }

  /** What the provider answers one request with. */
  datatype Reply =
    | HttpFailure(status: nat, providerMessage: Option<string>)  // `response.ok` is false
    | Completion(content: string)                                // `choices[0].message.content`

  /** What the page ends up showing. */
  datatype Screen =
    | ErrorShown(failure: Failure)
    | MovieShown(movie: MovieRecord, timeline: Timeline)
    | SuggestionsShown(items: seq<Suggestion>)

  /** One search: the queries sent to the provider (one request each) and the resulting screen. */
  datatype Search = Search(requests: seq<string>, screen: Screen)

  /**
   * `movieTitle || this.movieInput.value.trim()` followed by the blank check: a non-empty title
   * handed over by a clicked suggestion is used as it is; otherwise the input box is trimmed and
   * must not come out empty.
   */
  function TitleQuery(movieTitle: Option<string>, inputValue: string): (r: Result<string, Failure>)
    ensures r.Err? <==> !Truthy(movieTitle) && AllWhitespace(inputValue)
    ensures r.Err? ==> r.error == EmptyTitleQuery
    ensures r.Ok? ==> r.value != []
    ensures Truthy(movieTitle) ==> r == Ok(movieTitle.value)
    ensures !Truthy(movieTitle) && r.Ok? ==> r.value == Trim(inputValue)
  {
    if Truthy(movieTitle) then Ok(movieTitle.value)
    else
      TrimEmptyIffBlank(inputValue);
      var name := Trim(inputValue);
      if name == [] then Err(EmptyTitleQuery) else Ok(name)
  }

  /** `this.plotInput.value.trim()` followed by the blank check. */
  function PlotQuery(inputValue: string): (r: Result<string, Failure>)
    ensures r.Err? <==> AllWhitespace(inputValue)
    ensures r.Err? ==> r.error == EmptyPlotQuery
    ensures r.Ok? ==> r.value != [] && r.value == Trim(inputValue)
  {
    TrimEmptyIffBlank(inputValue);
    var text := Trim(inputValue);
    if text == [] then Err(EmptyPlotQuery) else Ok(text)
  }

  /** `errorData.error?.message || \`Erro ${response.status}\``. */
  function RequestFailureMessage(status: nat, providerMessage: Option<string>): (m: string)
    ensures Truthy(providerMessage) ==> m == providerMessage.value
    ensures !Truthy(providerMessage) ==> m == "Erro " + Decimal(status)
  {
    if Truthy(providerMessage) then providerMessage.value else "Erro " + Decimal(status)
  }

  /** Without a provider message, the default message tells the HTTP statuses apart. */
  lemma {:induction false} DefaultMessageIdentifiesStatus(s1: nat, s2: nat)
    requires RequestFailureMessage(s1, None) == RequestFailureMessage(s2, None)
    ensures s1 == s2
  {
    var m1, m2 := RequestFailureMessage(s1, None), RequestFailureMessage(s2, None);
    assert Decimal(s1) == m1[5..] && Decimal(s2) == m2[5..];
    DecimalRoundTrip(s1);
    DecimalRoundTrip(s2);
  }

  /**
   * The tail of `getMovieData` / `getMovieSuggestions` once a completion arrived: trim, extract
   * the brace span, then `JSON.parse` it (the `parse` oracle; None is a parse exception), failing
   * with `unreadable` when the parse fails.
   */
  function ObjectFromCompletion<T>(content: string, parse: string -> Option<T>, unreadable: Failure): (r: Result<T, Failure>)
    requires unreadable == UnreadableMovie || unreadable == UnreadableSuggestions
    ensures r == Err(NoJsonObject) <==> !HasBracePair(content)
    ensures forall i, j :: IsGreedySpan(content, i, j) ==>
      r == (match parse(content[i..j + 1]) case Some(v) => Ok(v) case None => Err(unreadable))
  {
    ExtractIgnoresTrim(content);
    match ExtractObjectText(Trim(content))
    case None => Err(NoJsonObject)
    case Some(text) =>
      match parse(text)
      case Some(v) => Ok(v)
      case None => Err(unreadable)
  }

  /** What one provider reply turns into, up to the parsed object. */
  function ObjectFromReply<T>(reply: Reply, parse: string -> Option<T>, unreadable: Failure): (r: Result<T, Failure>)
    requires unreadable == UnreadableMovie || unreadable == UnreadableSuggestions
    ensures reply.HttpFailure? ==> r == Err(RequestFailed(RequestFailureMessage(reply.status, reply.providerMessage)))
    ensures reply.Completion? ==> r == ObjectFromCompletion(reply.content, parse, unreadable)
  {
    match reply
    case HttpFailure(status, message) => Err(RequestFailed(RequestFailureMessage(status, message)))
    case Completion(content) => ObjectFromCompletion(content, parse, unreadable)
  }

  /**
   * The checks at the top of `displayResults`: a missing or empty title rejects the record whatever
   * its other fields hold; otherwise the actors to lay out are `movieData.actors || []`.
   */
  function ValidateMovie(movie: MovieRecord): (r: Result<seq<Actor>, Failure>)
    ensures r.Err? <==> !Truthy(movie.title)
    ensures r.Err? ==> r.error == IncompleteMovie
    ensures r.Ok? && movie.actors.None? ==> r.value == []
    ensures r.Ok? && movie.actors.Some? ==> r.value == movie.actors.value
  {
    if !Truthy(movie.title) then Err(IncompleteMovie)
    else if movie.actors.Some? then Ok(movie.actors.value)
    else Ok([])
  }

  /** The title alone decides whether a record is shown. */
  lemma {:induction false} OnlyTheTitleDecides(m1: MovieRecord, m2: MovieRecord)
    requires m1.title == m2.title
    ensures ValidateMovie(m1).Err? == ValidateMovie(m2).Err?
  {
  }

  /** What `displayResults(movie)` shows. */
  ghost predicate IsResultsScreen(screen: Screen, movie: MovieRecord, now: Date) {
    match ValidateMovie(movie)
    case Err(f) => screen == ErrorShown(f)
    case Ok(actors) => screen.MovieShown? && screen.movie == movie && IsTimelineOf(screen.timeline, actors, now)
  }

  /** `displayResults(movieData)`, with `now` standing for the clock used by the ages. */
  method DisplayResults(movie: MovieRecord, now: Date) returns (screen: Screen)
    ensures IsResultsScreen(screen, movie, now)
    ensures screen.ErrorShown? <==> !Truthy(movie.title)
    ensures screen.MovieShown? ==> (screen.timeline.NoActors? <==> movie.actors.None? || movie.actors.value == [])
  {
    match ValidateMovie(movie)
    case Err(f) =>
      screen := ErrorShown(f);
    case Ok(actors) =>
      var timeline := DisplayTimeline(actors, now);
      screen := MovieShown(movie, timeline);
  }

  /**
   * `displaySuggestions(data)`: a missing or empty `suggestions` list is an error; any other list,
   * of whatever length, is shown in the order given.
   */
  function DisplaySuggestions(reply: SuggestionReply): (r: Result<seq<Suggestion>, Failure>)
    ensures r.Err? <==> reply.suggestions.None? || reply.suggestions.value == []
    ensures r.Err? ==> r.error == NoSuggestions
    ensures r.Ok? ==> r.value == reply.suggestions.value
  {
    if reply.suggestions.None? || reply.suggestions.value == [] then Err(NoSuggestions)
    else Ok(reply.suggestions.value)
  }

  /**
   * Clicking a shown suggestion runs `searchMovie(suggestion.title)`: a non-empty title is searched
   * as it is, whatever the input box holds; a missing or empty one falls back to the input box.
   */
  lemma {:induction false} ClickedSuggestionQuery(items: seq<Suggestion>, k: nat, inputValue: string)
    requires k < |items|
    ensures Truthy(items[k].title) ==> TitleQuery(items[k].title, inputValue) == Ok(items[k].title.value)
    ensures !Truthy(items[k].title) ==> TitleQuery(items[k].title, inputValue) == TitleQuery(None, inputValue)
  {
  }

  /**
   * `searchMovie(movieTitle)`: the guard, then at most one request for the movie name, then
   * `displayResults` on the parsed record. Every error ends as an error screen.
   */
  method SearchMovie(movieTitle: Option<string>, inputValue: string, provider: string -> Reply,
                     parse: string -> Option<MovieRecord>, now: Date) returns (search: Search)
    ensures TitleQuery(movieTitle, inputValue).Err? ==> search == Search([], ErrorShown(EmptyTitleQuery))
    ensures TitleQuery(movieTitle, inputValue).Ok? ==>
      var name := TitleQuery(movieTitle, inputValue).value;
      && search.requests == [name]
      && match ObjectFromReply(provider(name), parse, UnreadableMovie)
         case Err(f) => search.screen == ErrorShown(f)
         case Ok(movie) => IsResultsScreen(search.screen, movie, now)
  {
    match TitleQuery(movieTitle, inputValue)
    case Err(f) =>
      search := Search([], ErrorShown(f));
    case Ok(name) =>
      match ObjectFromReply(provider(name), parse, UnreadableMovie)
      case Err(f) =>
        search := Search([name], ErrorShown(f));
      case Ok(movie) =>
        var screen := DisplayResults(movie, now);
        search := Search([name], screen);
  }

  /** `searchByPlot()`: the guard, then at most one request for the plot text, then `displaySuggestions`. */
  function SearchByPlot(inputValue: string, provider: string -> Reply,
                        parse: string -> Option<SuggestionReply>): (search: Search)
    ensures AllWhitespace(inputValue) <==> search.requests == []
    ensures AllWhitespace(inputValue) ==> search.screen == ErrorShown(EmptyPlotQuery)
    ensures !AllWhitespace(inputValue) ==> search.requests == [Trim(inputValue)]
    ensures search.screen.SuggestionsShown? ==> search.screen.items != []
    ensures search.screen.SuggestionsShown? <==>
      !AllWhitespace(inputValue)
      && var reply := ObjectFromReply(provider(Trim(inputValue)), parse, UnreadableSuggestions);
         reply.Ok? && DisplaySuggestions(reply.value).Ok?    ensures !AllWhitespace(inputValue) ==>
      match ObjectFromReply(provider(Trim(inputValue)), parse, UnreadableSuggestions)
      case Err(f) => search.screen == ErrorShown(f)
      case Ok(reply) =>
        match DisplaySuggestions(reply)
        case Err(f) => search.screen == ErrorShown(f)
        case Ok(items) => search.screen == SuggestionsShown(items) && items == reply.suggestions.value
  {
    match PlotQuery(inputValue)
    case Err(f) => Search([], ErrorShown(f))
    case Ok(text) =>
      var screen :=
        match ObjectFromReply(provider(text), parse, UnreadableSuggestions)
        case Err(f) => ErrorShown(f)
        case Ok(reply) =>
          match DisplaySuggestions(reply)
          case Err(f) => ErrorShown(f)
          case Ok(items) => SuggestionsShown(items);
      Search([text], screen)
  }

  /** A list shorter than the three suggestions the prompt asks for is still shown, in its order. */
  lemma ShortSuggestionListIsShown(s1: Suggestion, s2: Suggestion)
    ensures DisplaySuggestions(SuggestionReply(Some([s1]))) == Ok([s1])
    ensures DisplaySuggestions(SuggestionReply(Some([s1, s2]))) == Ok([s1, s2])
    ensures DisplaySuggestions(SuggestionReply(Some([]))) == Err(NoSuggestions)
  {
  }
}
