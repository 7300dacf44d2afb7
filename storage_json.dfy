/** The JSON backend (`StorageJson`): every operation reads the whole file, tolerating
    a missing or invalid one as `{}`, changes the dict in memory and rewrites the file.
    It validates year and rating itself and never stores a poster. */
module JsonStorage {
  import opened Options
  import opened Numbers
  import opened Catalog

  /** The branch `add_movie` takes, one per message it prints. */
  datatype AddStatus = NotANumber | AlreadyExists | YearOutOfRange | RatingOutOfRange | Added

  /** The branch `update_movie` takes. */
  datatype UpdateStatus = NoSuchMovie | RatingRejected | Updated

  class StorageJson {
    var file: FileState

    ghost predicate Valid()
      reads this
    {
      file.WellFormed()
    }

    constructor (file: FileState)
      requires file.WellFormed()
      ensures Valid() && this.file == file
    {
      this.file := file;
    }

    /** `list_movies`: the stored dict, or `{}` when the file is missing or not valid JSON. */
    method ListMovies() returns (data: Entries)
      requires Valid()
      ensures Unique(data)
      ensures file.Unreadable? ==> data == []
      ensures file.Holds? ==> data == file.movies
    {
      match file
      case Unreadable => data := [];
      case Holds(movies) => data := movies;
    }

    /** `add_movie`: coerces year with `int()` and rating with `float()`, then rejects a
        title already present, a year outside [1900, 2025] and a rating outside [0, 10],
        in that order; otherwise appends `title -> {rating, year}` and rewrites the file.
        The poster argument is ignored. */
    method AddMovie(title: Title, year: Scalar, rating: Scalar, poster: Option<string>) returns (status: AddStatus)
      requires Valid()
      modifies this
      ensures Valid()
      ensures status == NotANumber <==> IntOf(year).None? || FloatOf(rating).None?
      ensures status == AlreadyExists <==>
        IntOf(year).Some? && FloatOf(rating).Some? && title in Titles(Load(old(file)))
      ensures status == YearOutOfRange <==>
        IntOf(year).Some? && FloatOf(rating).Some? && title !in Titles(Load(old(file)))
        && !YearInRange(IntOf(year).value)
      ensures status == RatingOutOfRange <==>
        IntOf(year).Some? && FloatOf(rating).Some? && title !in Titles(Load(old(file)))
        && YearInRange(IntOf(year).value) && !RatingInRange(FloatOf(rating).value)
      ensures status == Added ==>
        file == Holds(Load(old(file)) + [Entry(title, Movie(FloatOf(rating).value, IntOf(year).value, None))])
      ensures status != Added ==> file == old(file)
    {
      var y, r := IntOf(year), FloatOf(rating);
      if y.None? || r.None? {
        return NotANumber;
      }
      var data := ListMovies();
      assert data == Load(old(file));
      if title in Titles(data) {
        status := AlreadyExists;
      } else if y.value < 1900 || y.value > 2025 {
        status := YearOutOfRange;
      } else if r.value < 0.0 || r.value > 10.0 {
        status := RatingOutOfRange;
      } else {
        var m := Movie(r.value, y.value, None);
        PutNewAppends(data, title, m);
        file := Holds(Put(data, title, m));
        status := Added;
      }
    }

    /** `delete_movie`: removes the title when present and rewrites the file; an absent
        title leaves the file as it was. */
    method DeleteMovie(title: Title) returns (deleted: bool)
      requires Valid()
      modifies this
      ensures Valid()
      ensures deleted <==> title in Titles(Load(old(file)))
      ensures deleted ==> file == Holds(Remove(Load(old(file)), title))
      ensures !deleted ==> file == old(file)
    {
      var data := ListMovies();
      if title in Titles(data) {
        RemoveUnique(data, title);
        file := Holds(Remove(data, title));
        deleted := true;
      } else {
        deleted := false;
      }
    }

    /** `update_movie`: for a present title and a rating in [0, 10], sets that record's
        rating and rewrites the file; otherwise the file is left as it was. */
    method UpdateMovie(title: Title, rating: real) returns (status: UpdateStatus)
      requires Valid()
      modifies this
      ensures Valid()
      ensures status == NoSuchMovie <==> title !in Titles(Load(old(file)))
      ensures status == RatingRejected <==> title in Titles(Load(old(file))) && !RatingInRange(rating)
      ensures status == Updated ==> file == Holds(SetRating(Load(old(file)), title, rating))
      ensures status != Updated ==> file == old(file)
    {
      var data := ListMovies();
      if title !in Titles(data) {
        status := NoSuchMovie;
      } else if 0.0 <= rating <= 10.0 {
        file := Holds(SetRating(data, title, rating));
        status := Updated;
      } else {
        status := RatingRejected;
      }
    }
  }
}
