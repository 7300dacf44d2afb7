/** The module-level storage functions of `movie_storage.py`, over the single file
    `movies.json`. Nothing is tolerated here: reading a missing or invalid file raises,
    `del` of an absent title raises KeyError and so does rating an absent title, so
    each of these is a precondition the callers must establish. */
module MovieStorage {
  import opened Options
  import opened Catalog

  class MoviesFile {
    var file: FileState

    ghost predicate Valid()
      reads this
    {
      file.WellFormed()
    }

    constructor (file: FileState)
      requires file.WellFormed()
      ensures Valid() && this.file == file
    {
      this.file := file;
    }

    /** `get_movies`: the stored dict; the file must exist and parse. */
    method GetMovies() returns (movies: Entries)
      requires Valid() && file.Holds?
      ensures Unique(movies)
      ensures movies == file.movies
    {
      movies := file.movies;
    }

    /** `save_movies`: overwrites the file with the given dict. */
    method SaveMovies(movies: Entries)
      requires Unique(movies)
      modifies this
      ensures Valid()
      ensures file == Holds(movies)
    {
      file := Holds(movies);
    }

    /** `add_movie`: `movies[title] = {rating, year}` with no validation. An existing
        title is overwritten in its position (any poster it had is dropped); a new one is
        appended. */
    method AddMovie(title: Title, rating: real, year: int)
      requires Valid() && file.Holds?
      modifies this
      ensures Valid() && file.Holds?
      ensures file.movies == Put(old(file.movies), title, Movie(rating, year, None))
    {
      var movies := GetMovies();
      movies := Put(movies, title, Movie(rating, year, None));
      SaveMovies(movies);
    }

    /** `delete_movie`: `del movies[title]`; the title must be present. */
    method DeleteMovie(title: Title)
      requires Valid() && file.Holds? && title in Titles(file.movies)
      modifies this
      ensures Valid() && file.Holds?
      ensures file.movies == Remove(old(file.movies), title)
    {
      var movies := GetMovies();
      RemoveUnique(movies, title);
      movies := Remove(movies, title);
      SaveMovies(movies);
    }

    /** `update_movie`: `movies[title]["rating"] = rating`; the title must be present. */
    method UpdateMovie(title: Title, rating: real)
      requires Valid() && file.Holds? && title in Titles(file.movies)
      modifies this
      ensures Valid() && file.Holds?
      ensures file.movies == SetRating(old(file.movies), title, rating)
    {
      var movies := GetMovies();
      movies := SetRating(movies, title, rating);
      SaveMovies(movies);
    }
  }

  /** Saving a dict and reading the file back returns that same dict. */
  method SaveThenGet(db: MoviesFile, movies: Entries) returns (read: Entries)
    requires Unique(movies)
    modifies db
    ensures read == movies
  {
    db.SaveMovies(movies);
    read := db.GetMovies();
  }
}
