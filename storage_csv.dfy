/** The backend in `storage/storage_csv.py` (`StorageCsv`). Despite its name it reads
    and writes the same JSON object as the JSON backend, with the same tolerant reader;
    it validates nothing, keeps the poster, and changes nothing silently when the title
    is already present (add) or absent (delete, update). */
module CsvStorage {
  import opened Options
  import opened Catalog

  class StorageCsv {
    var file: FileState

    ghost predicate Valid()
      reads this
    {
      file.WellFormed()
    }

    constructor (file: FileState)
      requires file.WellFormed()
      ensures Valid() && this.file == file
    {
      this.file := file;
    }

    /** `list_movies`: the stored dict, or `{}` when the file is missing or unparsable. */
    method ListMovies() returns (data: Entries)
      requires Valid()
      ensures Unique(data)
      ensures file.Unreadable? ==> data == []
      ensures file.Holds? ==> data == file.movies
    {
      match file
      case Unreadable => data := [];
      case Holds(movies) => data := movies;
    }

    /** `add_movie`: returns without writing when the title exists; otherwise stores
        `{rating, year, poster}` exactly as given, with no range check. */
    method AddMovie(title: Title, year: int, rating: real, poster: string) returns (added: bool)
      requires Valid()
      modifies this
      ensures Valid()
      ensures added <==> title !in Titles(Load(old(file)))
      ensures added ==> file == Holds(Load(old(file)) + [Entry(title, Movie(rating, year, Some(poster)))])
      ensures !added ==> file == old(file)
    {
      var data := ListMovies();
      if title in Titles(data) {
        return false;
      }
      var m := Movie(rating, year, Some(poster));
      PutNewAppends(data, title, m);
      file := Holds(Put(data, title, m));
      added := true;
    }

    /** `delete_movie`: removes the title when present; otherwise writes nothing. */
    method DeleteMovie(title: Title) returns (deleted: bool)
      requires Valid()
      modifies this
      ensures Valid()
      ensures deleted <==> title in Titles(Load(old(file)))
      ensures deleted ==> file == Holds(Remove(Load(old(file)), title))
      ensures !deleted ==> file == old(file)
    {
      var data := ListMovies();
      if title in Titles(data) {
        RemoveUnique(data, title);
        file := Holds(Remove(data, title));
        deleted := true;
      } else {
        deleted := false;
      }
    }

    /** `update_movie`: replaces only the rating of a present title, with no range
        check; otherwise writes nothing. */
    method UpdateMovie(title: Title, rating: real) returns (updated: bool)
      requires Valid()
      modifies this
      ensures Valid()
      ensures updated <==> title in Titles(Load(old(file)))
      ensures updated ==> file == Holds(SetRating(Load(old(file)), title, rating))
      ensures !updated ==> file == old(file)
    {
      var data := ListMovies();
      if title in Titles(data) {
        file := Holds(SetRating(data, title, rating));
        updated := true;
      } else {
        updated := false;
      }
    }
  }
}
