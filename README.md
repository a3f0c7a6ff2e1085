# CastTrace.AI response pipeline — a Dafny model

CastTrace.AI is a single-page widget (`MovieTimelineApp` in `script.js`). It asks a text-completion
provider for a film's data by title or by plot, pulls the JSON object out of the free-form completion,
and draws the principal actors on a timeline ordered by birth date. This project models the
deterministic part of that pipeline and proves its properties:

- the blank-query guards of `searchMovie` and `searchByPlot`;
- the choice of error message when a request fails;
- the greedy brace-span extraction `content.match(/\{[\s\S]*\}/)` applied to the trimmed completion;
- the title and suggestion checks of `displayResults` and `displaySuggestions`;
- `calculateAge`, done as calendar-year arithmetic;
- the data side of `displayTimeline`: the empty-list check, the `name`/`birthDate` filter, the
  stable sort by birth date, the "dates unavailable" outcome, and the loop that gives each entry its
  side, birth year, death year and age.

The completion provider (`fetch`) and `JSON.parse` are parameters of the search flows. The current
date (`new Date()`) is a parameter `now`. Dates arrive already parsed, as validated
(year, month, day) triples.

Modules, one per concern:

| file | module | contents |
|---|---|---|
| wrappers.dfy | Wrappers | `Option`, `Result` |
| text.dfy | Text | ECMAScript `trim`; decimal rendering of a status code |
| dates.dfy | Dates | calendar dates, their order, `calculateAge` |
| extraction.dfy | Extraction | the greedy `{ … }` match |
| records.dfy | Records | movie, actor and suggestion records |
| timeline.dfy | Timeline | filter, stable sort, the entry loop, `displayTimeline` |
| app.dfy | App | guards, error messages, `displayResults`, `displaySuggestions`, the two searches |

Behaviour of the code that a reader might not expect, and which the model keeps:

- a suggestions list shorter than three is shown, and only a missing or empty list is an error;
- the prompt asks for at most five actors, but nothing enforces that cap on the reply;
- a suggestion without a `title` is not rejected;
- actors without a `name` stay in the record and are only left off the timeline.

## Model

| member | source | states |
|---|---|---|
| Extraction.ObjectSpan | script.js:235-236 | the pattern matches exactly when some `{` is followed later by a `}`; the match then runs from the first `{` of the text to its last `}` |
| Extraction.ExtractObjectText | script.js:151-152 | the matched text exists exactly when a `{`…`}` pair exists; it is the greedy span's substring, at least two characters, starting with `{` and ending with `}` |
| Extraction.GreedySpanIsUnique | script.js:151 | only one span can be the first-`{`-to-last-`}` span, so the match is well defined |
| Extraction.ExtractIgnoresWrapping | script.js:235 | prose before the object without `{` and prose after it without `}` do not change what is extracted |
| Extraction.ExtractRecoversWrappedObject | script.js:151 | an object text wrapped in brace-free prose or code fences is recovered exactly |
| Extraction.ExtractIgnoresTrim | script.js:149-151 | trimming the completion before matching never changes the extracted text |
| Extraction.StrayBraceAfterObjectIsSwallowed | script.js:235 | the known limit of the greedy pattern: a `}` in trailing prose is swallowed into the match |
| Text.Trim | script.js:86 | `trim` keeps the part between a whitespace-only prefix and a whitespace-only suffix, and the result neither starts nor ends with whitespace |
| Text.TrimEmptyIffBlank | script.js:63-64 | a trimmed string is empty exactly when every character of the input is whitespace |
| Text.TrimIdempotent | script.js:86 | a general property of `trim` as used at every query and completion: trimming twice gives the same text as trimming once |
| Text.TrimSplits | script.js:149 | the input is a whitespace-only prefix, then the trimmed text, then a whitespace-only suffix |
| Text.Decimal | script.js:140 | the status is written as decimal digits with no leading zero |
| Text.DecimalRoundTrip | script.js:224 | reading the digits back gives the status |
| Dates.DaysInMonth | script.js:337 | the Gregorian month lengths: 30 days for April, June, September and November, 31 for the other months except February, and February 29 days in a leap year and 28 otherwise; a valid date must fit them |
| Dates.PrecedesIsStrictTotalOrder | script.js:288 | the order the sort compares birth dates by is a strict total order |
| Dates.YearsBetween | script.js:339-344 | the year difference, less one before the birthday, equals the number of anniversaries that have passed by the end date |
| Dates.AgeIsUnique | script.js:339-344 | only one number of completed years fits a birth date and an end date |
| Dates.EndDate | script.js:335 | the end date is the death date when there is one, and "now" otherwise |
| Dates.CalculateAge | script.js:332-350 | the age is absent exactly when the birth date is invalid; otherwise it is the number of completed years at the end date |
| Dates.AgeNonNegative | script.js:339-344 | the age is at least 0 when the end date is not before the birth date |
| Dates.AgeIsMonotonic | script.js:339-344 | the age never decreases as the end date moves later |
| Dates.AgeOnAnniversary | script.js:342-343 | on the n-th anniversary the age is exactly n |
| Dates.AgeExamples | script.js:339-346 | born 2000-06-15: 19 on 2020-06-14 and 20 on 2020-06-15, whether that is the death date or "now"; absent for an invalid birth date |
| Timeline.Placeables | script.js:286-287 | only actors with a non-empty `name` and a `birthDate` pass, each as often as in the input and in input order (a subsequence of the input); the result is empty exactly when no actor qualifies |
| Timeline.FilterIsUnique | script.js:287 | any order-keeping selection of exactly the qualifying actors, each as often as in the input, is the filter's result |
| Timeline.InsertByBirth | script.js:288 | inserting one actor into a sorted list keeps it sorted and adds exactly that actor |
| Timeline.SortByBirth | script.js:288 | the result is sorted ascending by birth date and is a permutation of the input |
| Timeline.InsertBornOn | script.js:288 | an inserted actor goes ahead of the actors with the same birth date already in the list |
| Timeline.SortIsStable | script.js:288 | actors with the same birth date keep their input order |
| Timeline.SortIsUnique | script.js:288 | two sorted lists that agree, date by date, on which actors they hold and in what order are equal |
| Timeline.StableSortIsSortByBirth | script.js:288 | any stable sort by birth date returns exactly the modelled sort's result |
| Timeline.SideAt | script.js:307 | the side is left exactly at even positions |
| Timeline.BuildEntries | script.js:301-326 | one entry per sorted actor, in order: the actor, its side by parity, its birth and death years, and its `calculateAge`; the first is left and neighbours alternate |
| Timeline.DisplayTimeline | script.js:280-330 | "no actors" exactly for an empty list; "dates unavailable" exactly when the list is non-empty and no actor qualifies; otherwise the loop's entries over the sorted, filtered actors |
| Timeline.TimelineProperties | script.js:286-307 | a shown timeline holds exactly the qualifying actors, sorted by birth date, stable among equal dates; sides alternate from the left; every age is the completed years at death, or at "now" for the living |
| Timeline.TwoActorExample | script.js:286-307 | actors born 1974 and 1990 appear in that order, left then right, with those birth years |
| Timeline.UndatedActorsExample | script.js:290-292 | a non-empty list in which no actor has a birth date gives "dates unavailable", not "no actors" |
| App.TitleQuery | script.js:62-67 | a title search is refused, before any request, exactly when no non-empty title was handed over and the input box is blank after trimming; a handed-over title is used as is |
| App.PlotQuery | script.js:85-90 | a plot search is refused exactly when the input is blank; otherwise the trimmed, non-empty text is used |
| App.MessagesTellFailuresApart | script.js:150-164 | the fixed error texts (also the guard texts at script.js:65 and 88 and the movie texts at 242 and 257) differ from one another, so each error kind can be told apart; a failed request shows the message chosen for it |
| App.RequestFailureMessage | script.js:139-146 | a failed request shows the provider's message when it is non-empty, and otherwise `Erro ` followed by the status |
| App.DefaultMessageIdentifiesStatus | script.js:223-229 | without a provider message, different statuses give different messages |
| App.ObjectFromCompletion | script.js:148-159 | the "no valid JSON" error occurs exactly when the completion has no `{`…`}` pair; otherwise the result is the parse of the greedy span, or the "could not interpret" error when parsing fails |
| App.ObjectFromReply | script.js:209-243 | an HTTP failure becomes the request-failure message; a completion goes through extraction and parsing |
| App.ValidateMovie | script.js:255-262 | a record is refused exactly when its `title` is missing or empty; a missing `actors` field counts as an empty list |
| App.OnlyTheTitleDecides | script.js:256-258 | records with the same title are accepted or refused alike, whatever their other fields hold |
| App.DisplayResults | script.js:255-264 | an error screen exactly for a missing or empty title; otherwise the movie with the timeline of its actors, "no actors" exactly when `actors` is missing or empty |
| App.DisplaySuggestions | script.js:162-186 | a missing or empty `suggestions` list is the "no suggestions" error; any other list is shown unchanged, in its order |
| App.ClickedSuggestionQuery | script.js:178-180 | clicking a suggestion searches its title when it is non-empty, and otherwise falls back to the input box |
| App.SearchMovie | script.js:62-83 | a blank query sends no request and shows the empty-query error; otherwise exactly one request for the name, then each failure as its error screen, or the results screen of the parsed record |
| App.SearchByPlot | script.js:85-105 | no request exactly for a blank plot; otherwise one request for the trimmed text, then each failure (request, extraction, parsing, empty list) as its own error screen, or the reply's suggestion list shown unchanged and in order; suggestions appear, never an empty list, exactly when the reply parses and holds a non-empty list |
| App.ShortSuggestionListIsShown | script.js:163-166 | one or two suggestions are shown as given; an empty list is the "no suggestions" error |

## Left out

- Network I/O: the `fetch` calls, request bodies, headers, prompt texts and the reading of the HTTP body. The provider is the parameter `provider`. It answers either an HTTP failure, with a status and an optional provider message, or the completion text.
- A provider envelope without `choices[0].message.content`: it throws a `TypeError` that becomes an error screen. This case is not modelled.
- `JSON.parse`: a function parameter returning the record, or None for a parse exception. Its result is typed as the records the prompts ask for. Non-string `title`/`name` values, non-array `actors`/`suggestions` (which throw `TypeError`s) and `null` array entries are not represented.
- JavaScript `Date` parsing and time zones. Dates are pre-parsed valid triples. The model cannot represent these cases:
  - a non-empty unparsable `birthDate`, which the code keeps on the timeline (age null, birth year NaN);
  - an invalid `deathDate`, which gives NaN rather than null;
  - the one-day shift that `new Date("YYYY-MM-DD")` shows in time zones west of UTC, because it parses as UTC and is read back with local getters.
- The clock: `new Date()` is the parameter `now`.
- The DOM and HTML: element lookups, event wiring, `switchTab`, `show*`/`hide*`, the HTML of `displayMovieInfo` and of the timeline items (including "Ano desconhecido" and "Viveu N anos"), and `getActorPhoto`, which only builds an avatar URL.
- `async`/`await` ordering: `displayTimeline` is not awaited by `displayResults`, and the model does not capture the order of these steps. Overlapping searches are not ordered: the model treats each search on its own.
- Diagnostics written to `console.error`, and the fallback `"Erro desconhecido …"` text. Every modelled failure carries a non-empty message, so that text is never shown.
