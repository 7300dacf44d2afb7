# Movie catalog: storage back-ends and command layers

This project models the core of a small movie-catalog application. The catalog is a
title-keyed table of records. Each record holds a rating, a year and, for one back-end,
a poster URL. The model covers:

- the three storage layers that load the whole table from a file, change it in memory
  and write it back: `StorageJson`, `StorageCsv` (which also stores JSON) and the
  module-level functions of `movie_storage.py`;
- the storage interface `IStorage` that the `MovieApp` class is written against;
- the command logic of `MovieApp` and of the console script `movies.py`: the guards in
  front of every storage call, the re-prompt loops, the case-insensitive search with its
  fuzzy fallback, the listing sorted by rating, and the HTML grid of the generated page.

How the model is built:

- A Python dict keeps insertion order, and search, sort and page output depend on that
  order. The table is therefore a sequence of `(title, record)` entries with pairwise
  distinct titles (`Catalog.Entries`, `Catalog.Unique`).
- `Put`, `Remove` and `SetRating` are `d[t] = m`, `del d[t]` and
  `d[t]["rating"] = x`. Each has a contract that states the new key order. Lemmas
  beside each state what every key looks up to afterwards and that titles stay distinct.
- The backing file is either unreadable (missing or not valid JSON) or holds a table
  (`Catalog.FileState`).
- Every storage object is a class whose one field is that file state. Its methods
  rewrite the field exactly where the source rewrites the file.
- `IStorage` is a tagged datatype over the two storage classes, with methods that
  dispatch to the backend. `AfterAdd` and `AfterUpdate` state exactly where the
  backends differ.
- Lines the user types are parameters:
  - a single answer is a `string`;
  - a re-prompt loop reads a `seq<string>`, and running out of lines stands for the
    end of input, which aborts the command without storing anything.
- The OMDb reply (`MovieApp.OmdbReply`) and the candidates returned by the fuzzy
  matcher (`Queries.Match`) are parameters.
- Python's `str.strip`, `str.lower`, `in`, `str.replace`, `int()`, `float()` and
  `str(int)` are written out in `Text` and `Numbers`.
- The back-ends differ in four ways that the contracts make explicit:
  - **duplicate title:** every add path refuses a duplicate, except `movie_storage.add_movie`, which overwrites the record in place;
  - **range checks:** only `StorageJson` checks the year and rating ranges;
  - **poster:** only `StorageCsv` keeps the poster;
  - **missing title:** for `movie_storage`, delete and update of a missing title are preconditions (they raise `KeyError`), while for the classes they are no-ops.

## Model

| member | source | states |
|---|---|---|
| JsonStorage.StorageJson.ListMovies | storage_json.py:12-20 | the stored table, or the empty table when the file is missing or not valid JSON |
| JsonStorage.StorageJson.AddMovie | storage_json.py:22-50 | a year or rating that `int()`/`float()` reject leaves the file untouched. Otherwise an existing title, a year outside [1900, 2025] and a rating outside [0, 10] are rejected in that order (each status holds iff its condition holds) and leave the file untouched. An accepted movie is appended as `{rating, year}`, and the poster is dropped |
| JsonStorage.StorageJson.DeleteMovie | storage_json.py:52-68 | deleted iff the title was present; then the file holds the table without that title, otherwise the file is unchanged |
| JsonStorage.StorageJson.UpdateMovie | storage_json.py:70-85 | an absent title and a rating outside [0, 10] are each reported and leave the file unchanged; otherwise only that title's rating changes |
| CsvStorage.StorageCsv.ListMovies | storage/storage_csv.py:12-20 | the stored table, or the empty table when the file is missing or unparsable |
| CsvStorage.StorageCsv.AddMovie | storage/storage_csv.py:22-38 | added iff the title is new; a new title is appended with exactly the given rating, year and poster, no range check; an existing title leaves the file unchanged |
| CsvStorage.StorageCsv.DeleteMovie | storage/storage_csv.py:40-49 | removes only a present title; an absent title leaves the file unchanged |
| CsvStorage.StorageCsv.UpdateMovie | storage/storage_csv.py:51-58 | replaces only the rating of a present title, with no range check; an absent title changes nothing |
| MovieStorage.MoviesFile.GetMovies | movie_storage.py:4-13 | requires a readable file and returns its table |
| MovieStorage.MoviesFile.SaveMovies | movie_storage.py:16-22 | the file holds exactly the given table |
| MovieStorage.SaveThenGet | movie_storage.py:4-22 | reading back after saving returns the saved table |
| MovieStorage.MoviesFile.AddMovie | movie_storage.py:25-35 | insert-or-overwrite `title -> {rating, year}` with no validation, by `Put` |
| MovieStorage.MoviesFile.DeleteMovie | movie_storage.py:38-47 | requires the title present (otherwise `KeyError`); the table loses exactly that title |
| MovieStorage.MoviesFile.UpdateMovie | movie_storage.py:50-59 | requires the title present; only its rating changes |
| Catalog.Put | movie_storage.py:33-34 | the key order gains the title at the end only when it is new and is otherwise unchanged |
| Catalog.PutLookup | movie_storage.py:33-34 | after the put, the title looks up to the new record and every other title as before |
| Catalog.PutUnique | movie_storage.py:33-34 | a put never gives a title a second entry |
| Catalog.PutNewAppends | movie_storage.py:33-34 | putting a new title appends its entry after all others |
| Catalog.PutKeepsPosition | movie_storage.py:33-34 | overwriting an existing title replaces that entry in its position and nothing else |
| Catalog.AppendedReadsBack | storage/storage_csv.py:31-35 | after appending a new title, it reads back with exactly the values stored, and every other title reads as before |
| Catalog.Remove | storage_json.py:62-63 | the key order loses exactly the title; an absent title leaves the table equal |
| Catalog.RemoveLookup | storage_json.py:62-63 | after the delete, the title looks up to nothing and every other title as before |
| Catalog.RemoveUnique | storage_json.py:62-63 | deleting keeps the titles distinct |
| Catalog.RemoveAt | storage_json.py:62-63 | deleting the title at position i closes the gap and keeps the order of the rest |
| Catalog.SetRating | storage_json.py:80-81 | the same keys in the same order |
| Catalog.SetRatingLookup | storage_json.py:80-81 | the title's record keeps its other fields and gets the new rating; other titles look up as before |
| Catalog.SetRatingIndex | storage_json.py:80-81 | each position holds the same entry, except that the entry with the title has the new rating |
| Catalog.SetRatingUnique | storage_json.py:80-81 | a rating update keeps the titles distinct |
| Catalog.SetRatingAt | storage/storage_csv.py:55-56 | setting the rating at position i changes only that entry, and in it only the rating |
| Catalog.SetRatingAbsent | storage/storage_csv.py:55 | setting the rating of an absent title changes nothing |
| Catalog.AddThenDeleteRestores | storage_json.py:45-65 | adding a new title and then deleting it restores the table exactly, order included |
| Catalog.Lookup | storage_json.py:39 | a title looks up to nothing iff it is not a key; otherwise to its record |
| Catalog.LookupAt | storage_json.py:39 | in a table with distinct titles, the title at position i looks up to the record at i |
| StorageInterface.Storage.ListMovies | storage_json.py:12-20 | either backend returns its table, with distinct titles |
| StorageInterface.Storage.AddMovie | movie_app.py:62 | the table becomes `AfterAdd`: unchanged for a known title, range-checked and poster-less for JSON, stored as given for CSV |
| StorageInterface.Storage.DeleteMovie | movie_app.py:76 | for both backends the table becomes `Remove(table, title)` |
| StorageInterface.Storage.UpdateMovie | movie_app.py:92 | the table becomes `AfterUpdate`: JSON ignores an out-of-range rating, CSV does not |
| StorageInterface.Storage.AfterUpdateInRange | movie_app.py:91-92 | with a rating in [0, 10], both backends set the rating |
| MovieApp.Enrich | movie_app.py:42-69 | a failed connection, a status other than 200 (reported with that status) and a `"Response": "False"` answer each give their own outcome. A movie is submitted iff the answer is JSON with status 200, is not `"Response": "False"`, and `int()`/`float()` accept its year and rating. It is then submitted with exactly those converted values, the poster (or "") and the title (or "Unknown Title") |
| MovieApp.MovieApp.AddNewMovie | movie_app.py:29-69 | a blank title, then a title already listed, are rejected before any lookup and change nothing; otherwise the outcome is the OMDb decision, and only a submitted movie reaches `storage.add_movie` with the fetched values |
| MovieApp.MovieApp.DeleteMovie | movie_app.py:71-79 | storage is called iff the title is listed; then the table loses exactly it, otherwise nothing changes |
| MovieApp.MovieApp.UpdateMovie | movie_app.py:82-100 | an absent title reads no rating and changes nothing. Otherwise every line before the accepted one is rejected, the accepted line parses to a rating in [0, 10], and that rating is stored once. When the lines run out, nothing is stored |
| MovieApp.MovieApp.SearchMovie | movie_app.py:145-174 | hits iff some lower-cased title contains the lower-cased query, and then exactly those entries in table order; otherwise the best candidate alone when it scores at least 96, else every candidate |
| MovieApp.MovieApp.MovieByRating | movie_app.py:176-183 | a permutation of the table, ratings non-increasing, equally rated movies in table order |
| MovieApp.RenderGrid | movie_app.py:195-207 | the loop builds exactly one fragment per movie, in table order |
| MovieApp.MovieApp.GenerateWebsite | movie_app.py:185-214 | the page is the template with every placeholder replaced by the grid of the listed movies |
| MovieApp.FragmentCarries | movie_app.py:196-207 | a movie's fragment contains its poster text, title and year |
| MovieApp.JoinedAppend | movie_app.py:195-207 | the rendering of two tables joined is the two renderings joined |
| MovieApp.JoinedAt | movie_app.py:195-207 | the k-th movie's rendering lies between the rendering of the movies before it and that of the movies after it |
| MovieApp.GridShowsEveryMovie | movie_app.py:195-207 | the grid contains every movie's poster text, title and year |
| MovieApp.PageShowsEveryMovie | movie_app.py:210 | with the placeholder once in the template, the page is the template with the grid in its place, and it shows every movie's poster text, title and year |
| Movies.AddNewMovie | movies.py:52-88 | a blank name, then a stored name, are rejected and change nothing. The year loop and then the rating loop each accept their first valid line, and every earlier line of that loop is rejected. The name is appended with exactly the accepted rating and year, so the overwrite path is never taken. Nothing is stored only when every line was rejected as a year, or every line after the accepted year was rejected as a rating |
| Movies.DeleteMovie | movies.py:91-100 | storage is called iff the title is stored, so `del` never meets a missing key |
| Movies.UpdateMovieRating | movies.py:103-122 | an absent title reads no rating and changes nothing. Otherwise the first acceptable rating line is stored, every earlier line is rejected, and that title is present when storage is called |
| Movies.SearchMovie | movies.py:170-199 | as the application's search: the ordered substring hits, else the at-least-96 rule on the candidates |
| Movies.MovieSortedByRating | movies.py:202-209 | a permutation, ratings non-increasing, ties in stored order |
| Prompts.PromptYear | movies.py:65-75 | stops at the first non-blank integer line in [1900, 2025] and returns its value; every earlier line is rejected; nothing is returned iff the lines run out |
| Prompts.PromptRating | movies.py:77-85 | stops at the first line parsing as a float in [0, 10] and returns it; every earlier line is rejected; nothing is returned iff the lines run out |
| Prompts.BlankIsNoInteger | movies.py:68-70 | the blank-line check rejects nothing `int()` would accept |
| Queries.Matching | movie_app.py:153-156 | an entry is kept iff its lower-cased title contains the query; never more entries than the table |
| Queries.MatchingAppend | movie_app.py:153-156 | the filter distributes over concatenation, so hits keep table order |
| Queries.SearchCatalog | movies.py:170-199 | the search loop and fallback, with the ensures listed for the two search commands |
| Queries.Suggest | movie_app.py:171-174 | one suggestion per candidate, in the matcher's order, each with that title's stored record |
| Queries.Insert | movie_app.py:179-180 | inserting one entry adds exactly that entry to the multiset |
| Queries.InsertSorted | movie_app.py:179-180 | inserting into a non-increasing list keeps it non-increasing |
| Queries.ByRating | movie_app.py:179-180 | ratings non-increasing and a permutation of the input |
| Queries.InsertRatedAt | movie_app.py:179-180 | insertion puts the entry ahead of the entries it ties with |
| Queries.ByRatingStable | movie_app.py:179-180 | for every rating, the movies with that rating appear in their original order |
| Text.Strip | movie_app.py:34 | a slice of the input with only whitespace cut off either end; empty iff the input is all whitespace; otherwise it starts and ends with a non-space |
| Text.StripUntrimmed | movie_app.py:34 | a string with no space at either end is its own strip |
| Text.Lower | movie_app.py:148 | same length as the input, character by character |
| Text.LowerIdempotent | movie_app.py:148-154 | lower-casing twice is lower-casing once, so lowering query and titles is consistent |
| Text.Contains | movie_app.py:154 | true iff the query occurs at some position |
| Text.ContainsWithin | movie_app.py:210 | text found in a piece is found in any string containing that piece |
| Text.ReplaceAll | movie_app.py:210 | a string with no occurrence of the pattern is returned unchanged |
| Text.ReplaceSkips | movie_app.py:210 | a prefix in which no occurrence starts is copied unchanged |
| Text.ReplaceSingle | movie_app.py:210 | a template with exactly one placeholder becomes prefix, replacement, suffix |
| Numbers.ShowNat | movie_app.py:204 | the decimal digits of n, non-empty, whose value is n, with no leading zero |
| Numbers.ShowInt | movie_app.py:204 | `str(year)` has no surrounding whitespace |
| Numbers.ParseInt | movies.py:70 | `int()` on a string: blank input is rejected |
| Numbers.ParseShowInt | movies.py:70 | `int(str(n)) == n` for every integer |
| Numbers.ParseReal | movies.py:79 | `float()` on a string: blank input is rejected |
| Numbers.ParseRealExtendsParseInt | movie_app.py:56-58 | every string `int()` accepts, `float()` accepts with the same value |
| Numbers.Truncate | storage_json.py:27 | `int()` of a float rounds toward zero |
| Numbers.IntOf | storage_json.py:27 | `int(v)`: an int is itself, a float is truncated toward zero (less than 1 away, between 0 and the value), and blank text is rejected |
| Numbers.FloatOf | storage_json.py:28 | `float(v)`: a float is itself, and every int or text that `int()` accepts, `float()` accepts with the same value |
| Prompts.YearAccepted | movies.py:67-73 | the year loop accepts a line iff `int()` accepts it with a value in [1900, 2025], so its blank check rejects nothing more |
| Prompts.RatingAccepted | movies.py:79-81 | a line the rating loops accept is never blank |

## Left out

- Printing, ANSI colours, the menu loops of `MovieApp.run` and of `movies.main`, and the wiring in `main.py`: these are console I/O.
- `_command_list_movies` and `display_movies`: they only print the table `list_movies`/`get_movies` return.
- `_command_movie_stats` and `display_stats`: mean and median are float arithmetic and `statistics.median`. Their best/worst lists compare a record dict with a number, so those lists are always empty. `max`/`min` also crash on an empty table.
- `_command_random_movie` and `pick_a_random_movie`: `random.choice` is nondeterministic.
- `create_rating_histogram`: matplotlib output.
- The OMDb request itself, the API key and dotenv loading: network I/O. The reply is a parameter (`MovieApp.OmdbReply`). A `requests` exception other than `ConnectionError` is `RequestFailed`.
- The fuzzywuzzy scores: a foreign library. The candidates are a parameter restricted to at most two titles of the table, and only the at-least-96 decision is modelled.
- JSON serialisation, file opening and the file paths: the file is abstracted as unreadable or holding a table. A missing file and an invalid file look alike to the tolerant readers. `movie_storage.get_movies` crashes on both, which is its precondition.
- The template file read and the page write in `_generate_website`: the template is a parameter and the page is the result.
- Numbers.ParseInt: does not accept the digit separators `_` or non-ASCII digits that Python's `int()` accepts.
- Numbers.ParseReal: does not accept `inf`, `nan`, `_` separators or non-ASCII digits, which Python's `float()` accepts. Values are exact decimals rather than binary floats, so rounding is not modelled.
- Text.Lower: lower-cases ASCII and Latin-1 capitals only, not all of Unicode.
- JsonStorage.StorageJson.AddMovie: a NaN rating, which Python's range test would let through, cannot occur because ratings are real numbers.
- Queries.FromExtract: the scores of the candidates are not constrained beyond being integers; whether fuzzywuzzy can report fewer than two candidates for a table of two or more titles is not modelled.
- MovieApp.MovieApp.AddNewMovie: prints "has been added" even when the JSON backend then rejects the movie (year or rating out of range). The model records the submitted values and the backend's resulting table, not the message.
- The JSON backend never stores a poster, so a page generated over it shows `src="None"` for every movie (`MovieApp.PosterText`). This is modelled as it is, not corrected.
