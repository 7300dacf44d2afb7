/** The storage interface (`IStorage`) the application is written against, with its
    two implementations. A value of `Storage` is one backend object; each operation
    dispatches to it, and the contracts state exactly where the backends differ. */
module StorageInterface {
  import opened Options
  import opened Numbers
  import opened Catalog
  import opened JsonStorage
  import opened CsvStorage

  datatype Storage = Json(json: StorageJson) | Csv(csv: StorageCsv) {

    /** The backend object, which holds the backing file. */
    function Obj(): object {
      match this
      case Json(j) => j
      case Csv(c) => c
    }

    ghost predicate Valid()
      reads Obj()
    {
      match this
      case Json(j) => j.Valid()
      case Csv(c) => c.Valid()
    }

    /** What `list_movies` returns at this moment. */
    function Movies(): Entries
      reads Obj()
    {
      match this
      case Json(j) => Load(j.file)
      case Csv(c) => Load(c.file)
    }

    /** The collection after `add_movie(title, year, rating, poster)`: never a second
        entry or an overwrite; the JSON backend also checks the ranges and drops the
        poster, the CSV one stores everything as given. */
    function AfterAdd(data: Entries, title: Title, year: int, rating: real, poster: string): (r: Entries)
      ensures title in Titles(data) ==> r == data
    {
      if title in Titles(data) then
        data
      else
        match this
        case Json(_) =>
          if YearInRange(year) && RatingInRange(rating) then data + [Entry(title, Movie(rating, year, None))]
          else data
        case Csv(_) => data + [Entry(title, Movie(rating, year, Some(poster)))]
    }

    /** The collection after `update_movie(title, rating)`: the JSON backend ignores a
        rating outside [0, 10], the CSV one does not. */
    function AfterUpdate(data: Entries, title: Title, rating: real): Entries {
      match this
      case Json(_) => if RatingInRange(rating) then SetRating(data, title, rating) else data
      case Csv(_) => SetRating(data, title, rating)
    }

    /** Both back-ends store a rating in [0, 10]. */
    lemma AfterUpdateInRange(data: Entries, title: Title, rating: real)
      requires RatingInRange(rating)
      ensures AfterUpdate(data, title, rating) == SetRating(data, title, rating)
    {
    }

    method ListMovies() returns (data: Entries)
      requires Valid()
      ensures Unique(data) && data == Movies()
    {
      match this
      case Json(j) => data := j.ListMovies();
      case Csv(c) => data := c.ListMovies();
    }

    method AddMovie(title: Title, year: int, rating: real, poster: string)
      requires Valid()
      modifies Obj()
      ensures Valid()
      ensures Movies() == AfterAdd(old(Movies()), title, year, rating, poster)
    {
      match this
      case Json(j) =>
        var _ := j.AddMovie(title, IntNum(year), FloatNum(rating), Some(poster));
      case Csv(c) =>
        var _ := c.AddMovie(title, year, rating, poster);
    }

    method DeleteMovie(title: Title)
      requires Valid()
      modifies Obj()
      ensures Valid()
      ensures Movies() == Remove(old(Movies()), title)
    {
      match this
      case Json(j) =>
        var _ := j.DeleteMovie(title);
      case Csv(c) =>
        var _ := c.DeleteMovie(title);
    }

    method UpdateMovie(title: Title, rating: real)
      requires Valid()
      modifies Obj()
      ensures Valid()
      ensures Movies() == AfterUpdate(old(Movies()), title, rating)
    {
      match this
      case Json(j) =>
        var status := j.UpdateMovie(title, rating);
        if status == NoSuchMovie {
          SetRatingAbsent(old(Movies()), title, rating);
        }
      case Csv(c) =>
        var updated := c.UpdateMovie(title, rating);
        if !updated {
          SetRatingAbsent(old(Movies()), title, rating);
        }
    }
  }
}
