# Movie Recommender page: verified model of its page logic

The repository is one Streamlit page, `app.py`. It shows a home feed or search
results as a grid of movie posters, and a detail page with similar movies. All
search and recommendation work happens behind an external HTTP API. This
project models the small pieces of logic that sit between the Streamlit calls,
and it proves their properties in Dafny:

- **Poster grid** (`poster_grid`). The row count is `(len + cols - 1) // cols`.
  Cards are placed row by row with a running index, and the inner loop breaks
  once the cards run out. Each "Open" button gets the key
  `key_prefix_idx_tmdb_id`, where `idx` is the card's 1-based position.
  Module `Grid`, file `grid.dfy`.
- **Search projection**. At most the first 24 raw results are visited. Those
  whose `id` is truthy become cards `{tmdb_id, title, poster_url}`. Module
  `Search`, file `search.dfy`.
- **Similar-items filter**. This keeps the embedded `tmdb` object of every
  recommendation that has one. Module `Similar`, file `similar.dfy`.
- **View state**. The session keys `view` and `selected_tmdb_id`, the URL query
  parameters, and the actions `goto_home` and `goto_details`. Module
  `Navigation`, file `navigation.dfy`. The class `Navigation.Session` updates
  its fields in place.

Parsed JSON responses are values of `Py.Value`: None, bool, integer, string,
list, or dict. Python truthiness (`Py.Truthy`), `dict.get` (`Py.Get`) and `str()`
(`Py.Display`) are written out. So `m.get("id")` drops an id of `0`, `""`,
`False` or `None`, and not only a missing one. Python exceptions are modelled
as values, not as preconditions, except for the column count (see "## Left out"). Calling `.get` on something that is not a dict
raises. So does `m['tmdb_id']` on a card without that key, and slicing or
iterating a value that cannot be sliced or iterated. These cases appear as
`Py.PyResult.Raises` and `Grid.Outcome.Crashed(at)`. `Seqs.Positions` is the
reference definition of "the elements a filter keeps, in order". Both
filtering loops are proved against it.

The HTTP call `api_get_json` is treated as an abstract source of `(data, err)`.
The search screen (`Search.SearchScreen`) takes both as parameters. The
similar-items section (`Similar.SimilarSection`) takes only the response
`bundle`, because the page discards that call's error (app.py:237).

The code is followed wherever it differs from how the page is documented:

- `goto_home` does not clear `selected_tmdb_id`. After opening a movie and going
  back home, that movie is still selected (`Navigation.BackHomeRemembersMovie`).
- The page writes the `view` and `id` query parameters but never reads them.
  A shared link opens on the home view, so the routing (`Navigation.Route`)
  depends only on the session state.
- `goto_details` keeps any other query parameters in the URL. The parameters
  are exactly `{view: "details", id: str(id)}` only when there are no others,
  for example after `goto_home`.
- A similar-items response that arrives with no usable recommendations is not
  silent. The grid shows "No movies found." (`Similar.NoRecommendationsIsNotSilent`).
- A search hit without a title is shown as "None", not "Untitled". The search
  card always stores the key `title`, with value None, so
  `m.get('title', 'Untitled')` never uses its default (`Search.HitRendering`).

## Model

| member | source | states |
|---|---|---|
| `Py.Truthy` | app.py:91 | Python's `bool()`: None, False, 0, "", [] and {} are false, every other value is true |
| `Py.Display` | app.py:115 | Python's `str()`: "None", "True"/"False", the signed decimal form of an integer, a string itself (lists and dicts as placeholders) |
| `Py.Decimal` | app.py:115 | `str(idx)` of a position is a non-empty string of decimal digits |
| `Py.DecimalRoundTrip` | app.py:115 | reading the decimal form of a position back gives the same number |
| `Py.DecimalInjective` | app.py:115 | different positions have different decimal forms |
| `Grid.Renderable` | app.py:110-115 | a card can be drawn when `m.get` works (it is a dict) and `m['tmdb_id']` exists |
| `Grid.Key` | app.py:115 | the button key `f"{key_prefix}_{idx}_{m['tmdb_id']}"` |
| `Grid.MakeCell` | app.py:107-121 | the drawn cell of a card at 1-based position idx: the poster when `m.get("poster_url")` is truthy, the title `str(m.get('title','Untitled'))`, the button key |
| `Grid.RowCount` | app.py:95 | `(len(cards) + cols - 1) // cols`, the number of rows |
| `Grid.Layout` | app.py:95-105 | the reference grid: `(n + cols - 1) // cols` rows, row r holding the cells of cards r*cols up to the next row start or the end |
| `Grid.FirstUnrenderable` | app.py:104-115 | finds the first card where `m.get` or `m['tmdb_id']` raises; if there is none, every card can be rendered |
| `Grid.Grid` | app.py:90-123 | "No movies found." exactly for an empty card list; an exception exactly at the first card that is not a dict with `tmdb_id`; otherwise a layout, and then every card can be rendered |
| `Grid.PosterGrid` | app.py:90-105 | the nested loop, with its running index and early break, produces exactly `Grid(cards, cols, prefix)` |
| `Grid.RowCountIsCeiling` | app.py:95 | `(n + cols - 1) // cols` is the ceiling of n / cols: those rows hold all cards, one row fewer would not, and no cards give no rows |
| `Grid.LayoutShape` | app.py:95-102 | ceil(n / cols) rows; every row non-empty with at most cols cards; all rows but the last full; the last holds n mod cols cards when that is nonzero, else cols |
| `Grid.RowWidth` | app.py:95-102 | row r begins before the end of the cards (r*cols < n) and holds min(cols, n - r*cols) cards, between 1 and cols; every row before the last is full |
| `Grid.LastRowWidth` | app.py:98-102 | the row where the cards run out holds n mod cols cards, or cols when cols divides n |
| `Grid.LayoutPlacesCard` | app.py:96-105 | card k lands in row k div cols, column k mod cols, with 1-based button position k + 1 |
| `Grid.LayoutCellSource` | app.py:96-105 | conversely, the cell in row r, column c exists only for c < cols and r*cols + c < n, and holds card r*cols + c |
| `Grid.LayoutFlattensToCards` | app.py:96-105 | reading the rows in order gives back every card exactly once, in input order |
| `Grid.KeyDeterminesPosition` | app.py:115 | two keys with the same prefix are equal only if their positions are equal, whatever the tmdb ids |
| `Grid.CellKeysDistinct` | app.py:115 | cells at different positions get different button keys |
| `Grid.LayoutKeysDistinct` | app.py:105-115 | all button keys of one grid are pairwise distinct |
| `Seqs.PositionsSelect` | app.py:176-177 | the positions a filter keeps are ascending, each one is kept, and an element is kept exactly when its position is among them |
| `Seqs.PositionsSnoc` | app.py:177-178 | appending an element adds its position exactly when the filter keeps it |
| `Search.AsValue` | app.py:178-182 | the dict appended for a card: keys `tmdb_id`, `title` and `poster_url`, with Python None stored as `Null` |
| `Search.HasId` | app.py:177 | a hit is kept when it is a dict and `m.get("id")` is truthy |
| `Search.ToCard` | app.py:178-182 | the card `{tmdb_id: m["id"], title: m.get("title"), poster_url: TMDB_IMG + str(poster_path) if poster_path is truthy else None}` |
| `Search.Candidates` | app.py:176 | `data.get("results", [])[:24]`: for a results list exactly its first min(24, len) elements; for a string its first min(24, len) characters as one-character strings; it raises exactly when data is not a dict or results is neither a list nor a string; never more than 24 elements |
| `Search.Project` | app.py:176-182 | the loop raises exactly when some visited element is not a dict; otherwise it keeps at most as many cards as it visits |
| `Search.SearchCards` | app.py:175-182 | a successful projection has at most 24 cards |
| `Search.ProjectResults` | app.py:175-182 | the append loop returns exactly `SearchCards(data)`, including its exception cases |
| `Search.ProjectSelects` | app.py:176-182 | card j is built from the j-th visited hit with a truthy id |
| `Search.SearchCardsSelect` | app.py:176-180 | the visited hits are exactly the first min(24, len) raw results, and the cards are the subsequence of them whose id is truthy: a hit is kept exactly when its id is truthy, card j comes from the j-th such hit, and `tmdb_id = m["id"]`, `title = m.get("title")` |
| `Search.SearchScreen` | app.py:168-187 | what a search shows: "Search failed." when err is truthy or data is falsy, a traceback when the projection raises, otherwise the poster grid of the cards with keys prefixed "search" |
| `Search.CardRenderable` | app.py:178-182 | every search card is a dict with `tmdb_id`, so the grid can render it |
| `Search.HitRendering` | app.py:179-181 | a kept hit shows a poster exactly when `poster_path` is truthy, at URL `TMDB_IMG + str(poster_path)`; its title shows as `str(m.get("title"))`, so "None" when missing; its key carries its id |
| `Search.SearchGridNeverCrashes` | app.py:172-185 | once a search succeeded, its grid never raises: "No movies found." when no hit was kept, otherwise the layout of the cards |
| `Similar.HasEmbedded` | app.py:245 | an entry contributes when it is a dict and `x.get("tmdb")` is truthy |
| `Similar.KeepEmbedded` | app.py:245 | the comprehension raises exactly when some entry is not a dict; otherwise it keeps at most one truthy summary per entry |
| `Similar.SimilarCards` | app.py:245 | every kept summary is truthy; a non-empty result needs a list of recommendations |
| `Similar.KeepEmbeddedSelects` | app.py:245 | the kept summaries are exactly `x["tmdb"]` of the entries with a truthy `tmdb`, in entry order (summary j comes from the j-th such entry) |
| `Similar.SimilarSection` | app.py:243-248 | nothing when the bundle is falsy, a traceback when the comprehension raises, otherwise the poster grid of the kept summaries with keys prefixed "tfidf" |
| `Similar.NoRecommendationsIsNotSilent` | app.py:243-248 | a truthy bundle whose recommendations are missing, an empty string, an empty dict, or a list of dict entries none of which carries a summary shows "No movies found." |
| `Navigation.WithDefaults` | app.py:61-64 | sets view "home" when the key is missing and selected id None when that key is missing; everything else unchanged |
| `Navigation.AfterGoHome` | app.py:67-70 | view "home" and an empty query; the selected id is not touched |
| `Navigation.AfterGoDetails` | app.py:72-77 | view "details", the id selected, and the query parameters `view` and `id` set to "details" and `str(id)`; other parameters stay |
| `Navigation.Route` | app.py:158 | the home page when view is "home", otherwise the details of the selected id |
| `Navigation.Step` | app.py:61-77 | one script run: the defaults, then the navigation the click triggers |
| `Navigation.FirstRunIsHome` | app.py:61-64 | the first run of a session sets view "home" and selected id None, and shows the home page |
| `Navigation.DefaultsKeepState` | app.py:61-64 | once both keys are set, the initialisation never overwrites them |
| `Navigation.GoDetailsShowsDetails` | app.py:72-76 | `goto_details(x)` shows the details of x and keeps the state consistent; without foreign parameters, and always after `goto_home`, the query is exactly {view: "details", id: str(x)} |
| `Navigation.GoHomeKeepsSelection` | app.py:67-69 | `goto_home` shows the home page, clears the query and leaves the selected id unchanged |
| `Navigation.BackHomeRemembersMovie` | app.py:67-76 | opening a movie and then going home leaves view "home" with that movie still selected |
| `Navigation.StepKeepsConsistent` | app.py:61-77 | one script run (initialisation, then an optional navigation) keeps the state consistent and leaves both keys set |
| `Navigation.StepsKeepConsistent` | app.py:61-77 | any sequence of runs from a consistent state stays consistent: the details view always has a selection that the URL names |
| `Navigation.SessionsStayConsistent` | app.py:61-77 | every state a session reaches from a fresh start is consistent, and has both keys set after its first run |
| `Navigation.Session.constructor` | app.py:61-64 | a new session has neither key set and holds the URL's query parameters |
| `Navigation.Session.InitDefaults` | app.py:61-64 | sets view "home" and selected None only where they are missing, leaves the query unchanged, and preserves consistency |
| `Navigation.Session.GotoHome` | app.py:67-70 | view "home", query emptied, selection unchanged |
| `Navigation.Session.GotoDetails` | app.py:72-77 | view "details", selected id x, query updated at `view` and `id` only |

## Left out

- `api_get_json` (app.py:80-87) is not modelled: the HTTP request, JSON decoding and the 30-second `st.cache_data` cache. Responses enter the model as the `(data, err)` parameters of `Search.SearchScreen` and as the `bundle` parameter of `Similar.SimilarSection`, whose error the page discards.
- Streamlit rendering is not modelled: CSS and markdown, `st.image`, `st.columns`, spinners, the footer, and the detail page's poster and text (app.py:205-231). A grid is modelled as its rows of cells (card, poster, title text, key), not as widgets.
- The home feed (app.py:189-201) and the detail fetch guard (app.py:211-215) are not modelled. They only pass an API response to `poster_grid` or to an error message. `Grid` takes the cards as a list, so a home feed answered with a dict or a string is not covered.
- "Surprise Me" (app.py:134-138) picks with `random.choice`, so only its effect is modelled: it is an `Open` action, which calls `goto_details`.
- `st.rerun()` and `st.stop()` end a run. `Navigation.Step` models one run, and the model does not continue after them.
- `typed.strip()` (app.py:168) uses Python's Unicode whitespace. `Search.SearchScreen` applies once the search text is non-blank.
- The category heading `replace('_', ' ').title()` (app.py:190) depends on Unicode case rules and is not modelled.
- Py.Display: `str()` of a list or dict is Python's `repr`, which depends on quoting rules, Unicode printability and dict order. These values display as the placeholders `[...]` and `{...}`. Floats are not part of `Py.Value`. The distinct-key proofs do not depend on how an id is displayed.
- Grid.Grid: an exception is reported as the index of the failing card. The rows drawn before the exception are not recorded.
- Grid.PosterGrid: requires `cols >= 1`. The slider only offers 4 to 8. With `cols == 0` Python raises ZeroDivisionError. With a negative `cols`, floor division gives one row for a single card, and `st.columns` then raises on the negative count; two or more cards give no rows, so nothing is drawn. Neither case is modelled.
- `Py.Value.Dict` is an unordered map, so the model has no dict insertion order. This matters only where the page iterates a dict (recommendations given as a dict), and that raises for every non-empty dict whatever the order.
- Query parameters are a map from string to string. Repeated parameters, whose value would be a list, are not modelled.
