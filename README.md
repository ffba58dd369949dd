# Higher-or-lower artist game: judging and pair selection

This project models the two rules of the Flask game in `app.py`. Players see two artists and guess which one has more monthly Spotify listeners. The artist table it loads from a CSV file is an input value here. It is a sequence of rows, and each row holds an `Artist` name and a `MonthlyListeners` count. Both rules only read the table.

- **Judging a guess** (`guess`). This is a pure function of the table, the chosen name and the other name. It errs, with both counts 0, when the table is empty or either name is absent. Otherwise each name takes the count of its *first* row, compared by exact, case-sensitive name. The guess wins exactly when the chosen count is strictly greater, so a tie loses.
- **Picking a pair** (`get_random_artists`). With fewer than two rows the result is the two fixed placeholder rows, both with 0 listeners. Otherwise it is two rows taken from distinct positions, because `df.sample(2)` samples without replacement. The random draw is passed in as a pair of positions `(i, j)` (`RandomArtists`). `DrawRandomArtists` picks that pair by nondeterministic choice.

Everything is in one module, `ArtistGame` (`artist_game.dfy`). Name lookup has an independent reference definition, `Listed` and `IsFirstMatch`. The contracts of the lookup and judging functions are stated against that definition.

`app.py` judges one guess at a time and keeps no game state (score, history or session) between requests.

## Model

| member | source | states |
|---|---|---|
| ArtistGame.FindFirst | app.py:59-60 | the position returned is the first row whose name equals the query exactly; none is returned exactly when no row carries the name |
| ArtistGame.FirstListeners | app.py:59-60 | a listed name resolves to the listener count of its first matching row (`.values[0]`) |
| ArtistGame.ListedHasFirstMatch | app.py:56-60 | a name that passes the membership test always has a first matching row, so the lookup after the test never fails |
| ArtistGame.FindFirstExtend | app.py:59-60 | rows after a name's first match never change where that name is found |
| ArtistGame.Judge | app.py:51-63 | error with both counts 0 when the table is empty or either name is absent (only then); otherwise each count is that of the name's first row, the names are passed through, and it is a win exactly when the chosen count is strictly greater, a loss otherwise |
| ArtistGame.SelfGuessNeverWins | app.py:62 | guessing an artist against itself never wins, and it loses whenever the name is listed |
| ArtistGame.TieLoses | app.py:62 | equal resolved counts always give a loss, for any two names |
| ArtistGame.JudgeSwap | app.py:56-63 | swapping the names keeps the error verdict, swaps the two reported counts, and turns a win into a loss |
| ArtistGame.JudgeExtend | app.py:56-62 | once both names resolve, appending rows (duplicate names included) leaves the outcome unchanged: first match decides |
| ArtistGame.EmptyTableGuessIsError | app.py:56-57 | on the empty table every guess is an error with both counts 0 |
| ArtistGame.TwoArtistExample | app.py:56-63 | with rows A=100 and B=50, A over B wins with counts 100 and 50, B over A loses, and an unknown name is an error |
| ArtistGame.RandomArtists | app.py:36-42 | always two rows; with fewer than two table rows exactly the two placeholders; otherwise two rows of the table that, together, form a sub-multiset of it (no row used twice) |
| ArtistGame.DrawIsSubMultiset | app.py:41 | two rows at distinct positions form a sub-multiset of the table, which is what sampling without replacement guarantees |
| ArtistGame.PlaceholdersHaveNoListeners | app.py:38-40 | every row of the fallback pair reports 0 listeners |
| ArtistGame.DrawRandomArtists | app.py:36-42 | the sampler returns two rows; with fewer than two table rows exactly the placeholders; otherwise the rows at some two distinct positions of the table |
| ArtistGame.DrawnPairResolves | app.py:41-42 | a guess of one drawn artist against the other never errs |
| ArtistGame.DrawnPairJudgedOnShownCounts | app.py:41-62 | with unique names, a guess on a drawn pair is judged on the counts shown with the pair and wins exactly when the first count is the larger |
| ArtistGame.DuplicateNameJudgedOnFirstRow | app.py:41-62 | when a name repeats, the count shown with a drawn row can differ from the count the guess is judged on: with rows A=10, A=99, B=50, the drawn pair shows A=99 over B=50, yet choosing A over B loses, on counts 10 and 50 |

## Left out

- Flask routing, form reading, template rendering and redirects are web-framework I/O. The model returns the values the result page is rendered with as an `Outcome`.
- The SQLite `PlayerScore` model, table creation and the leaderboard query are database calls to a foreign library.
- Loading the CSV at start-up and the upload route are file I/O. The table is an input value, and it may be empty.
- The histogram route, its PNG buffer and its base64 encoding are plotting and encoding glue. They have no behavioural contract.
- The random distribution of `df.sample` is not modelled. The draw is either a given pair of distinct positions or a nondeterministic choice of one.
- NumPy integer types and missing (NaN) values in the CSV are not modelled. Listener counts are unbounded integers, and names are plain strings.
- The table is never modified by judging or by selection. This holds by construction: both are functions of a table value. No separate member states it.
- The `df.empty` test in `get_random_artists` is subsumed by `len(df) < 2`. `RandomArtists` keeps both tests, as the source does.
- `app.py` keeps no score, history or session state, so none is modelled.
