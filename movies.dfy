/** The console commands of `movies.py`, written against the module-level functions of
    `movie_storage.py`. Every storage call these commands make is guarded so that the
    storage function's preconditions hold: the title passed to delete and update is
    present, and the title passed to add is new. */
module Movies {
  import opened Options
  import opened Text
  import opened Numbers
  import opened Catalog
  import opened MovieStorage
  import opened Queries
  import opened Prompts

  /** How `add_new_movie` ends. `Added` records the accepted year and rating and the
      indices of the lines they were read from. */
  datatype AddOutcome =
    | EmptyName
    | AlreadyExists
    | Added(year: int, rating: real, yearAt: nat, ratingAt: nat)
    | NoAnswer

  /** `add_new_movie`: `name` is the first line typed, `answers` the lines after it.
      A blank name and a name already stored are rejected; otherwise the year loop
      and then the rating loop read `answers` in turn (`NoAnswer` when the lines run out
      first), and the validated values are
      stored under the name, which becomes the last entry. */
  method AddNewMovie(db: MoviesFile, name: string, answers: seq<string>) returns (outcome: AddOutcome)
    requires db.Valid() && db.file.Holds?
    modifies db
    ensures db.Valid() && db.file.Holds?
    ensures outcome == EmptyName <==> IsBlank(name)
    ensures outcome == AlreadyExists <==> !IsBlank(name) && name in Titles(old(db.file.movies))
    ensures outcome.Added? ==>
      && outcome.yearAt < outcome.ratingAt < |answers|
      && ParseInt(answers[outcome.yearAt]) == Some(outcome.year) && YearInRange(outcome.year)
      && (forall j :: 0 <= j < outcome.yearAt ==> !YearAccepted(answers[j]))
      && ParseReal(answers[outcome.ratingAt]) == Some(outcome.rating) && RatingInRange(outcome.rating)
      && (forall j :: outcome.yearAt < j < outcome.ratingAt ==> !RatingAccepted(answers[j]))
      && db.file.movies == old(db.file.movies) + [Entry(name, Movie(outcome.rating, outcome.year, None))]
    ensures outcome == NoAnswer ==> !IsBlank(name) && name !in Titles(old(db.file.movies))
    ensures outcome == NoAnswer ==>
      || (forall j :: 0 <= j < |answers| ==> !YearAccepted(answers[j]))
      || (exists y :: 0 <= y < |answers| && YearAccepted(answers[y])
            && (forall j :: 0 <= j < y ==> !YearAccepted(answers[j]))
            && (forall j :: y < j < |answers| ==> !RatingAccepted(answers[j])))
    ensures !outcome.Added? ==> unchanged(db)
  {
    var movies := db.GetMovies();
    if IsBlank(name) {
      return EmptyName;
    }
    if name in Titles(movies) {
      return AlreadyExists;
    }
    var year, yearAt := PromptYear(answers, 0);
    if year.None? {
      return NoAnswer;
    }
    var rating, ratingAt := PromptRating(answers, yearAt + 1);
    if rating.None? {
      return NoAnswer;
    }
    assert db.file.movies == movies;
    PutNewAppends(movies, name, Movie(rating.value, year.value, None));
    db.AddMovie(name, rating.value, year.value);
    assert db.file.movies == movies + [Entry(name, Movie(rating.value, year.value, None))];
    outcome := Added(year.value, rating.value, yearAt, ratingAt);
  }

  /** `delete_movie`: deletes only a stored title, so `del` never meets a missing key. */
  method DeleteMovie(db: MoviesFile, title: Title) returns (deleted: bool)
    requires db.Valid() && db.file.Holds?
    modifies db
    ensures db.Valid() && db.file.Holds?
    ensures deleted <==> title in Titles(old(db.file.movies))
    ensures deleted ==> db.file.movies == Remove(old(db.file.movies), title)
    ensures !deleted ==> unchanged(db)
  {
    var movies := db.GetMovies();
    if title in Titles(movies) {
      db.DeleteMovie(title);
      deleted := true;
    } else {
      deleted := false;
    }
  }

  /** `update_movie_rating`: for a stored title, re-prompts until a rating in [0, 10]
      parses and stores it; an unknown title reads no rating and stores nothing. */
  method UpdateMovieRating(db: MoviesFile, title: Title, ratings: seq<string>) returns (outcome: UpdateOutcome)
    requires db.Valid() && db.file.Holds?
    modifies db
    ensures db.Valid() && db.file.Holds?
    ensures outcome == NoSuchMovie <==> title !in Titles(old(db.file.movies))
    ensures outcome.Updated? ==>
      && outcome.at < |ratings|
      && ParseReal(ratings[outcome.at]) == Some(outcome.rating) && RatingInRange(outcome.rating)
      && (forall j :: 0 <= j < outcome.at ==> !RatingAccepted(ratings[j]))
      && db.file.movies == SetRating(old(db.file.movies), title, outcome.rating)
    ensures outcome == InputExhausted ==> forall j :: 0 <= j < |ratings| ==> !RatingAccepted(ratings[j])
    ensures !outcome.Updated? ==> unchanged(db)
  {
    var movies := db.GetMovies();
    if title in Titles(movies) {
      var rating, at := PromptRating(ratings, 0);
      assert db.file.movies == movies;
      if rating.Some? {
        db.UpdateMovie(title, rating.value);
        assert db.file.movies == SetRating(movies, title, rating.value);
        outcome := Updated(rating.value, at);
      } else {
        outcome := InputExhausted;
      }
    } else {
      outcome := NoSuchMovie;
    }
  }

  /** `search_movie`, with the fuzzy matcher's candidates given. */
  method SearchMovie(db: MoviesFile, query: string, matches: seq<Match>) returns (report: Report)
    requires db.Valid() && db.file.Holds? && FromExtract(db.file.movies, matches)
    ensures report.Hits? <==> exists e :: e in db.file.movies && Contains(Lower(e.title), Lower(query))
    ensures report.Hits? ==> report.found == Matching(db.file.movies, Lower(query))
    ensures report.Silent? <==> !report.Hits? && matches == []
    ensures report.Exact? <==> !report.Hits? && matches != [] && matches[0].score >= ExactScore
    ensures report.Exact? ==> report.title == matches[0].title && Lookup(db.file.movies, report.title) == Some(report.movie)
    ensures report.DidYouMean? ==> report.query == Lower(query) && report.suggestions == Suggest(db.file.movies, matches)
  {
    var movies := db.GetMovies();
    report := SearchCatalog(movies, query, matches);
  }

  /** `movie_sorted_by_rating`: every movie once, highest rating first, ties in stored order. */
  method MovieSortedByRating(db: MoviesFile) returns (ranked: Entries)
    requires db.Valid() && db.file.Holds?
    ensures NonIncreasing(ranked)
    ensures multiset(ranked) == multiset(db.file.movies)
    ensures forall x :: RatedAt(ranked, x) == RatedAt(db.file.movies, x)
  {
    var movies := db.GetMovies();
    ranked := ByRating(movies);
    forall x
      ensures RatedAt(ranked, x) == RatedAt(movies, x)
    {
      ByRatingStable(movies, x);
    }
  }
}
